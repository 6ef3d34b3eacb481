# A verified model of the messenger's protocols

This Dafny project models the parts of the messenger where mistakes are hardest to see by
reading one function: protocols that run over many steps, handlers that interleave, and
formats that must survive a round trip. Each module follows one component.

- **Ratchet, RatchetNetwork.** A double-ratchet session as an object, and two of them joined
  by a FIFO channel in each direction under arbitrary interleavings.
- **FreeKeys, RatchetSecrecy.** A free algebra of keys in which "cannot be derived" is a
  statement about all derivations; what a stolen session reveals, and what a ratchet step heals.
- **SenderKeys.** The sending chain of a group member, its lockstep with a seeded copy, and
  which of its messages a chain key opens.
- **Groups, GroupEngine.** Group membership against key epochs over whole runs of create, add,
  remove, leave and send; the engine's operations on its stores.
- **Transfers, Uploads, Downloads.** The transfer workers with program counters, interleaved
  with any number of Pause, Resume and Cancel callers and progress readers; the upload loop.
- **Registry, Offline, RelayServer, RelayRuns, RelayDelivery.** The relay's connection table, its
  store-and-forward of messages through 200-row batches and 256-slot queues, the handlers that use
  them, whole runs of the relay with the history of every queue, and what the delivered flag says.
- **EventBus.** Publishers under the read lock, subscribers under the write lock, and the
  close that happens after the unlock.
- **MediaCache.** The media table and its pruning as a refinement of a recency list.
- **Calls, CallFates.** Candidate buffering and session teardown under concurrent signal handlers,
  and what becomes of every session.
- **Packets, Compression, Pipeline.** The packet codec with its 32-bit arithmetic, the
  self-describing compressor, and the whole way of a direct-chat payload.
- **Mentions, SafetyNumbers.** The mention scanner and the 60-digit safety number.
- **Prelude, Primitives, ByteOrder, Decimals.** Shared types, the laws of the cryptographic
  library, big-endian integers, decimal numerals.

## How it is modelled

Code that updates fields or moves cursors is a class or a method with loops, proved against a
function of the old state; concurrent code is a machine of atomic steps, and its theorems
quantify over every sequence of steps. A step that is not possible does nothing, so every
sequence is a run. Integers wrap where the code's do: uint64 message counters, uint32
iterations and lengths, and the uint32 subtraction in the packet length check.

The cryptographic library is a record of functions constrained by two laws only: both sides of
an X25519 agreement get the same secret (section 6.1 of RFC 7748), and opening undoes sealing
under equal key and associated data. Theorems hold for every such library. Secrecy statements
use the free algebra, which meets the laws. Compression, JSON and SHA-512 are function
parameters too. Randomness, clocks, the outcome of saves, reachability of peers and the choices
of `select` are inputs of each operation, so their failures are covered.

## Where the code falls short

In each case the model follows the code and a theorem gives the exact condition; where the
failing state takes several steps to reach, a run that reaches it is given too.

- A removed member "must not decrypt future messages" (messenger/engine.go:559). If the
  rotation cannot draw a key the old chain stays in use: `Groups.RemoveKeepsEpochIff`, reached by
  `Groups.RotationMissedIsReached`. The removal notice itself goes out before the rotation:
  `Groups.RemovedPeerReadsNoticeIff`.
- A pause "temporarily suspends" a transfer (messenger/transfer.go:134). The token of an earlier
  Resume that nobody waited for ends it: `Uploads.PauseUndoneIff`, `Uploads.StaleTokenEndsPause`.
- Offline delivery (server/server.go:965-1002) hands out every row not marked delivered, and a
  message pushed to a live connection is not marked: such a message comes twice.
  `RelayDelivery.DeliveryIsExactIff`, `RelayDelivery.LiveMessageComesTwice`.
- The relay marks a whole batch delivered, also the rows that found the send queue full
  (server/server.go:955-1002): `RelayDelivery.RunKeepsBooksIff`, `RelayDelivery.OverflowLosesMessage`.
- A connection that authenticates again under another identity stays listed under the first
  (server/server.go:333-369): `Registry.AuthenticateExactIff`, `Registry.SecondIdentityStaysListed`.
- The safety number "is symmetric" (crypto/crypto.go:68). With equal node identifiers and
  different keys it is not: `SafetyNumbers.SymmetricIff`.
- The length check of the packet decoder computes in uint32, so an encoding followed by other
  bytes is not always readable (transport/zerotier.go:442-446): `Packets.RoundTripIff`,
  `Packets.SuffixCanBreak`.
- A ratchet step that fails after its first half leaves a changed session behind
  (crypto/crypto.go:189-226): `RatchetNetwork.KeyKeepsOneAheadIff` for the effect on the pair, over
  runs `RatchetNetwork.RunStaysOneAheadIff`; `RatchetSecrecy.StepUnchangedIff` for the session.
- A save that fails between file and row can leave a file that does not match its row
  (storage/sqlite.go:566-578): `MediaCache.KeepsBackedIff`, `MediaCache.FailedSaveBreaksStore`.
- A call session whose offer fails, or whose table entry a second offer of the same name replaces,
  is never closed (media/call.go:341-405): `CallFates.EverySessionHasItsFate`,
  `CallFates.FailedOfferIsLetGo`, `CallFates.SecondOfferLetsGo`.

## Model

| member | source | states |
|---|---|---|
| `Ratchet.SessionKey.Advance` | crypto/crypto.go:161-173 | the message key comes from the old sending chain; the chain, the wrapping send counter and the count of messages since the last step move by one and nothing else changes |
| `Ratchet.SessionKey.AdvanceRecv` | crypto/crypto.go:176-186 | the same for the receiving half |
| `Ratchet.SessionKey.DHRatchet` | crypto/crypto.go:189-226 | the object ends in the specified state on success, with the message count back at zero, and at each of the three failure points |
| `Ratchet.RatchetOutcomes` | crypto/crypto.go:189-226 | a step succeeds if and only if both agreements and the draw of a fresh pair do; a refused first agreement leaves the session as it was, the later failures leave root, receiving chain and remote key moved and the sending chain in place |
| `Ratchet.EncryptPacketBody` | crypto/crypto.go:537-548 | seals under a key bound to the counter after the advance, with the header as associated data; state moves as one send |
| `Ratchet.DecryptPacketBody` | crypto/crypto.go:552-564 | opens with the receiving key bound to the counter after the advance; the chain moves whether or not the packet opens |
| `Primitives.CounterBytesValue` | crypto/crypto.go:542-544 | the eight salt bytes, read as a big-endian number, are the counter modulo 2^64 |
| `Primitives.CounterBytesInjective` | crypto/crypto.go:542-544 | two counters have the same salt bytes if and only if they agree modulo 2^64 |
| `Primitives.FirstCounter` | crypto/crypto.go:542-544 | the first packet of a session is salted with 00 00 00 00 00 00 00 01 |
| `Ratchet.RotationDueIff` | crypto/crypto.go:148-158 | after a completed step, whatever was received since, the next step is due exactly with the message that reaches the one limit or with the time that reaches the other; the counter starts again at 2^64 messages |
| `Ratchet.SendsCount` | crypto/crypto.go:161-180 | after n packets the counters stand n further modulo 2^64 |
| `RatchetNetwork.EveryRunIsFaithful` | crypto/crypto.go:161-226 | in every interleaving of encryptions, FIFO deliveries and ratchet steps, from a start with one side one root ahead: every delivered packet opened to the body encrypted, in order, none lost or invented; RecvCounter plus packets in flight equals the peer's SendCounter, in both directions |
| `RatchetNetwork.EverythingSentIsRead` | crypto/crypto.go:161-226 | after any run, a side that reads its channel to the end has got every body the other encrypted in that run, in order |
| `RatchetNetwork.RunSends` | crypto/crypto.go:535-548 | each side has sent exactly the bodies of its own encryptions, in order |
| `RatchetNetwork.RatchetSwapsRoles` | crypto/crypto.go:189-226 | a completed Diffie-Hellman step turns "peer one root ahead" into "self one root ahead", with the new key behind the packets of the old chain |
| `RatchetNetwork.HalfStepLevels` | crypto/crypto.go:189-226 | a step that cannot draw a fresh pair leaves both roots equal and both directions still readable |
| `RatchetNetwork.KeyKeepsOneAheadIff` | crypto/crypto.go:189-226 | a delivered public key keeps "exactly one side is one root ahead" if and only if a fresh pair could be drawn for the step |
| `RatchetNetwork.RunStaysOneAheadIff` | crypto/crypto.go:189-226 | a run ends with exactly one side one root ahead if and only if no delivery of a public key lacked a fresh pair; otherwise it ends with level roots, whatever came later |
| `RatchetNetwork.RunKeepsAgreement` | crypto/crypto.go:161-226 | the agreement invariant holds after any sequence of events, failures of the random source included |
| `RatchetNetwork.StepKeepsAgreement` | crypto/crypto.go:161-226 | one event of either side keeps the agreement invariant |
| `RatchetNetwork.PacketAppended` | crypto/crypto.go:537-548 | a packet sealed by the sender and put behind whatever is in flight, a key included, is opened by the receiver to its body when its turn comes |
| `RatchetNetwork.KeyAppended` | crypto/crypto.go:189-226 | a public key announced behind the packets of the old chain leads the receiver to the sender's new chain |
| `RatchetNetwork.CountersAcrossChannel` | crypto/crypto.go:161-186 | the two counters of a direction differ by the packets in flight, modulo 2^64, across ratchet steps |
| `RatchetSecrecy.StepHealsSending` | crypto/crypto.go:189-226 | in the free algebra, somebody who knew the whole session before a step, and anything else the fresh key is no part of, computes no packet key of the new sending chain; the receiving chain the same step starts is still open to them |
| `RatchetSecrecy.NextStepHealsReceiving` | crypto/crypto.go:189-226 | once the peer has stepped too, the chain the next step follows to is closed to somebody who knew the whole session before, and anything else the first fresh key is no part of |
| `RatchetSecrecy.StepUnchangedIff` | crypto/crypto.go:189-226 | in the free algebra a step leaves the session exactly as it was if and only if the peer key is refused as a low-order point |
| `RatchetSecrecy.SessionRevealsExactlyLater` | crypto/crypto.go:122-226 | forward secrecy: after a step, i packets sent and j received, the whole session reveals exactly the packet keys from positions i and j on |
| `RatchetSecrecy.PacketKeysDistinct` | crypto/crypto.go:537-548 | two packet keys are equal if and only if chain, position and counter modulo 2^64 are: no key serves two packets, and the key is bound to the counter |
| `RatchetSecrecy.MessageKeysRevealNoOther` | crypto/crypto.go:163-180 | any set of message keys of a chain gives away neither the chain at any position nor the message key of any packet outside the set |
| `RatchetSecrecy.ChainsNeverMeet` | crypto/crypto.go:601-629 | chains started by different steps never run into each other, and no chain returns to an earlier position |
| `RatchetSecrecy.OldSecretHidden` | crypto/crypto.go:189-209 | once the step has replaced the private key, the start of neither chain can be derived from the session again |
| `SenderKeys.SenderKey.Advance` | crypto/crypto.go:269-288 | message key and next chain key both come from the old chain key; the iteration wraps at 2^32 |
| `SenderKeys.SenderKey.AdvanceMany` | crypto/crypto.go:269-288 | n advances yield the keys of positions 0 to n-1 of the chain and leave the chain at n |
| `SenderKeys.Lockstep` | crypto/crypto.go:269-301 | a member object seeded from the owner's distribution at iteration k yields on its n-th advance the owner's key of position k+n under the same iteration number |
| `SenderKeys.MessageKeysDistinct` | crypto/crypto.go:269-288 | in the free algebra all message keys of one chain are pairwise distinct |
| `SenderKeys.EarlierMessagesHidden` | crypto/crypto.go:230-288 | forward secrecy: somebody whose keys on a chain all lie at position k or later can compute no message key below k, whatever else they know that does not contain the chain's atom |
| `SenderKeys.LaterMessagesOpen` | crypto/crypto.go:269-301 | a chain key at position k makes every message key from k on computable |
| `SenderKeys.SeedReadsExactlyLater` | messenger/engine.go:1430-1438 | a distributed chain key opens exactly the messages from its position on |
| `SenderKeys.MessageKeysRevealNoOther` | crypto/crypto.go:269-288 | from any set of message keys of a group chain exactly those message keys can be computed |
| `FreeKeys.FreeIsLawful` | crypto/crypto.go:589-629 | the laws assumed of the cryptographic library are consistent |
| `Groups.RunKeepsSound` | messenger/engine.go:442-567 | over any run of create, add, remove, leave and send in which no rotation is missed: every peer ever offered a current chain is a member, chains are never shared or reused, and no chain key given to an outsider reaches back to an earlier message, but for the notice of its own removal |
| `Groups.RemoveKeepsEpochIff` | messenger/engine.go:541-567 | a removal keeps that invariant if and only if it is not the case that the rotation fails to draw a key while the removed peer holds the current chain |
| `Groups.RotationMissedIsReached` | messenger/engine.go:541-567 | a run of two operations reaches the failing case: create with the peer invited, then remove it while no key can be drawn |
| `Groups.OutsidersCannotRead` | messenger/engine.go:557-562 | in any run in which no rotation is missed, a peer that was no member when a message was sent can compute its key, from all chain keys ever sent to it plus own knowledge, if and only if the message is the notice of its own removal and it had been offered that chain |
| `Groups.ReadableIffOffered` | messenger/engine.go:1430-1438 | in any state whatever, a peer can compute a message key if and only if it was ever given a key of that chain from that position or before |
| `Groups.RemovedPeerReadsNoticeIff` | messenger/engine.go:556-562 | the removal notice goes out before the rotation, and the removed peer can compute its key if and only if the chat had a chain and the peer was ever offered it; a chain made on the fly for the notice is out of its reach |
| `Groups.MembersReadAfterRemoval` | messenger/engine.go:559-562 | after a removal with a working random source every remaining reachable member can compute the key of the next user message |
| `Groups.RunNeverInTheClearIff` | messenger/engine.go:1492-1501 | over any run all group payloads are encrypted if and only if no operation sent its message in a chat without a chain while its own draw failed |
| `Groups.StepInTheClearIff` | messenger/engine.go:1492-1501 | one operation adds a payload in the clear if and only if it is such an operation |
| `Groups.AddKeepsSound` | messenger/engine.go:511-539 | adding a member keeps the invariant, also when the chain is made on the fly |
| `Groups.AddOffersFromNow` | messenger/engine.go:511-539 | with a chain in place adding a member to a group offers that member, if reachable, the position behind the notice, and offers nobody anything else |
| `Groups.LeaveKeepsSound` | messenger/engine.go:486-509 | leaving keeps the invariant, also when the chat cannot be saved |
| `Groups.LeaveDropsChain` | messenger/engine.go:486-509 | after leaving there is no local chain; the membership goes exactly if the chat could be saved |
| `Groups.CreateKeepsSound` | messenger/engine.go:442-479 | creating a chat keeps the invariant |
| `Groups.CreateOffersInvited` | messenger/engine.go:442-479 | creating a group draws a new chain and offers it from its start to exactly the reachable invited peers; a direct chat, or a failed draw, offers nothing |
| `Groups.CreateStores` | messenger/engine.go:442-479 | a new chat holds the local peer and then the invited as named, and is direct if and only if it has no name and at most one invited peer |
| `Groups.NewGroupReadsFirstMessage` | messenger/engine.go:442-479 | create, then send: one record under the new chain at position 0 for the local peer and all invited, and every reachable invited peer computes its key |
| `Groups.ChainOnTheFlyIsRead` | messenger/engine.go:1492-1506 | a message in a group without a chain draws one, goes out under it at position 0, and every reachable member computes its key |
| `Groups.DirectSendsPairwise` | messenger/engine.go:1477-1491 | a send in a direct chat with somebody else draws no chain, offers nothing and puts no record on the group wire |
| `Groups.SendsOnGroupWireIff` | messenger/engine.go:1477-1506 | a send stays off the group wire if and only if the chat is direct and has somebody else in it |
| `Groups.GroupSendsUnderChain` | messenger/engine.go:1492-1506 | a send in a group with a chain is one record to all members under that chain, which moves one position |
| `Groups.AddStores` | messenger/engine.go:511-530 | a new member comes behind the others; a present member, an unknown chat and a failed save change nothing |
| `Groups.AddSendsNotice` | messenger/engine.go:531-534 | the notice of an addition goes to old and new members of the group under the chain in place |
| `Groups.RemoveStores` | messenger/engine.go:541-556 | a removal takes out the peer only; an unknown chat and a failed save change nothing |
| `Groups.OthersKeepOrder` | messenger/engine.go:546-551 | the remaining members keep their order, each as often as before |
| `Groups.LeaveSendsNotice` | messenger/engine.go:486-509 | leaving a group with a chain sends the notice under it to all members, the local one included, and the membership goes with the save |
| `Groups.SendKeepsSound` | messenger/engine.go:1492-1506 | a send, with or without creating the chain on the fly, keeps the invariant |
| `Groups.OfferAllAdds` | messenger/engine.go:1396-1445 | a distribution round adds offers of the chain as it stands, to reachable listed peers other than the local one, and nothing else |
| `Groups.OfferAllReaches` | messenger/engine.go:1396-1445 | and it adds one for every such peer |
| `GroupEngine.Engine.DistributeSenderKeyTo` | messenger/engine.go:1412-1445 | one offer of the current chain position if there is a chain and the peer can be reached |
| `GroupEngine.Engine.InitGroupSenderKey` | messenger/engine.go:1396-1410 | the loop over the members equals the specified re-keying; a failed draw changes nothing |
| `GroupEngine.Engine.FirstOther` | messenger/engine.go:1200-1211 | the recipient of a direct chat is a member other than the local peer, and is found whenever there is one |
| `GroupEngine.Engine.WithoutMember` | messenger/engine.go:546-551 | the filter loop keeps exactly the other members, in order |
| `GroupEngine.Engine.SendMessage` | messenger/engine.go:1492-1506 | the new state of both stores after a send equals the specification |
| `GroupEngine.Engine.CreateGroup` | messenger/engine.go:442-479 | likewise for creating a chat |
| `GroupEngine.Engine.AddChatMember` | messenger/engine.go:511-539 | likewise for adding a member: save, notice, then the offer to the new member |
| `GroupEngine.Engine.RemoveChatMember` | messenger/engine.go:541-567 | likewise for removing a member: save, notice, then the rotation |
| `GroupEngine.Engine.LeaveChat` | messenger/engine.go:486-509 | likewise for leaving: notice, key dropped, then the save |
| `Uploads.NoLostWakeUp` | messenger/transfer.go:202-232 | in every interleaving of the worker with any number of callers and readers, a worker in the pause region finds the state Paused, or a token, or somebody about to send one |
| `Uploads.BoundedCancel` | messenger/transfer.go:114-132 | once a Cancel has placed its token, in any continuation: at most one more chunk is stored; finish is called at most once, and exactly once when the worker is at rest, which is never in the pause; the worker makes a bounded number of steps; Completed needs everything uploaded |
| `Uploads.DoomedRestsFinished` | messenger/transfer.go:202-274 | with a cancel token placed the worker comes to rest if and only if it is gone, having called finish exactly once |
| `Uploads.PauseHolds` | messenger/transfer.go:135-153 | without a press a paused transfer that cannot come undone stores nothing but a chunk already past the pause check, in any interleaving |
| `Uploads.PauseUndoneIff` | messenger/transfer.go:135-232 | a reachable paused transfer can store more than the chunk in flight without another press, and can show itself active, if and only if the worker is already leaving an earlier pause, or a resume token, sent or on the way, can meet it at the select |
| `Uploads.StaleTokenEndsPause` | messenger/transfer.go:156-174 | Pause, Resume while the worker is busy, Pause: a run after which the transfer is paused, no caller is left, and it stores on without a press |
| `Uploads.WakesAreSent` | messenger/transfer.go:156-174 | in every run the worker leaves the pause at most once for each resume token sent |
| `Uploads.StoredIsUploaded` | messenger/transfer.go:187-274 | at every moment the stored chunks, read back by their offset keys, are data[0..uploaded], whatever the store held before; a Completed transfer holds all of it in ceil(total/64 KiB) chunks |
| `Uploads.FinalStatusIff` | messenger/transfer.go:187-274 | in every run a finished transfer is Completed exactly if the loop test found everything stored, Failed exactly if a save failed, and Cancelled exactly if a select took a token or the end of the context; it is finishing exactly if one of these happened |
| `Uploads.NoSecondExit` | messenger/transfer.go:324-330 | after one of these no other happens |
| `Uploads.ContextEndsPause` | messenger/transfer.go:213-226 | the end of the context lets a worker leave the pause, Cancelled |
| `Uploads.UndisturbedUploadCompletes` | messenger/transfer.go:187-274 | left alone with working saves a transfer is pending, then active, and at rest only Completed with everything stored and off the list |
| `Uploads.UploadSnapshotsConsistent` | messenger/transfer.go:340-372 | no progress snapshot of an upload shows done above total, and one that shows Completed shows done equal to total |
| `Uploads.ButtonsAndReports` | messenger/transfer.go:111-180 | an uninterrupted button or report acts on the control or the meter of the upload and on nothing else of it |
| `Uploads.WorkIsBounded` | messenger/transfer.go:187-274 | in any run the worker makes no more effective steps than 11 times the bytes left plus its place in the loop, however often it is paused and resumed |
| `Uploads.StuckOnlyInPause` | messenger/transfer.go:202-232 | the worker cannot move if and only if it is gone, or in the pause with no token and a live context |
| `Uploads.WorkDescends` | messenger/transfer.go:187-274 | every effective worker step brings the end nearer |
| `Uploads.StepKeepsInv` | messenger/transfer.go:114-274 | one step of worker, caller or reader keeps the invariant behind these results; done never decreases |
| `Uploads.RunUpload` | messenger/transfer.go:187-274 | the loop, for any sequence of observations: it stores the first chunks of the split until a turn stops it, and its outcome is Completed exactly when all data is stored |
| `Uploads.SaveNextChunk` | messenger/transfer.go:234-252 | cutting, keying and saving one chunk extends the stored split by exactly the next piece |
| `Uploads.ChunkKeyInjective` | messenger/transfer.go:241-244 | different offsets have different chunk keys |
| `Uploads.JoinedIsPrefix` | messenger/transfer.go:234-252 | stored chunks concatenate to the part of the data they cover |
| `Uploads.WholeUpload` | messenger/transfer.go:187-274 | after the last chunk the number of chunks is ceil(total/64 KiB) and they concatenate to the data |
| `Uploads.DoomedRun` | messenger/transfer.go:114-132 | a placed cancel token, or an ending worker, is never undone, and bounds the chunks still to come |
| `Downloads.DownloadSnapshotsConsistent` | messenger/transfer.go:278-308 | in every interleaving with the two stores of the download worker no snapshot shows done above total; at most one finish; Completed only with data |
| `Downloads.FinalStatusIff` | messenger/transfer.go:278-308 | in every run a finished download is Completed exactly if the cache or else the server returned data, all of it done, and Failed exactly if neither did |
| `Downloads.ButtonsAndReports` | messenger/transfer.go:111-180 | an uninterrupted button or report acts on the control or the meter of the download and on nothing else of it |
| `Transfers.ReadAlone` | messenger/transfer.go:340-350 | an uninterrupted report tells the state and both numbers as they are |
| `Downloads.ReversedLoadsBreak` | messenger/transfer.go:340-372 | the order of the loads matters: a reader taking total before done could report more done than total |
| `Transfers.CalledAlone` | messenger/transfer.go:114-174 | an uninterrupted Cancel, Pause or Resume writes its state and token if and only if the state allows it |
| `Transfers.ButtonsDo` | messenger/transfer.go:114-174 | button by button: Cancel is refused exactly in the three finished states, Pause needs Active, Resume needs Paused; a refused call changes nothing, the others write Cancelled, Paused or Active and place their own token |
| `Transfers.UnlistedIsNotFound` | messenger/transfer.go:312-316 | a call for a transfer that is no longer listed changes nothing |
| `Transfers.CallFrame` | messenger/transfer.go:114-174 | callers never take a token back, never leave a finished state and never produce Completed |
| `Transfers.Transfer.CancelTransfer` | messenger/transfer.go:114-132 | the method refuses exactly in finished states and otherwise has that effect, a full channel swallowing the token |
| `Transfers.Transfer.PauseTransfer` | messenger/transfer.go:135-153 | the same for Pause, allowed exactly when Active |
| `Transfers.Transfer.ResumeTransfer` | messenger/transfer.go:156-174 | the same for Resume, allowed exactly when Paused |
| `RelayDelivery.DeliveryIsExactIff` | server/server.go:657-689 | over any run, for every row no batch lost: it is marked exactly if a frame of the message entered a queue, and at most one did, if and only if the message was never relayed while somebody it is addressed to had a live connection with room; when every batch fits no row is lost |
| `RelayDelivery.DeliveredOnceIffPushed` | server/server.go:965-1002 | over any run a row is marked exactly if one authentication handed it out or lost it; marking and queueing agree if and only if the message was pushed live never, or once if a batch lost it |
| `RelayDelivery.DirectMeetsLiveIffListed` | server/server.go:945-953 | for a direct message to a recipient whose queues are not full that condition is the test of deliverTo, whether the recipient is in the table of connections |
| `RelayDelivery.RunHandsOutOwn` | server/server.go:965-1002 | over any run what an authentication handed out to a connection is a stored message whose recipient is a peer the connection authenticated as |
| `RelayDelivery.StepHandsOutOwn` | server/server.go:333-384 | what one event hands out goes to the connection that authenticates, is addressed to the peer it authenticates as, and that is its identity afterwards |
| `RelayDelivery.RelayReachesIff` | server/server.go:657-689 | relaying puts the frame into a queue if and only if the connection has room and is listed for a member other than the sender or, when the chat is unknown, for the recipient |
| `RelayRuns.LastUploadHolds` | server/server.go:1029-1049 | in every run the members a chat has on the relay are those of its latest upload |
| `RelayRuns.DrainingWritesQueue` | server/server.go:257-271 | a writer puts what waits in the queue on its connection, oldest first, and leaves the other connections alone |
| `RelayRuns.DisconnectForgets` | server/server.go:924-943 | a disconnect ends the queue, the identity and the listing under that identity; rows, other queues and other listings stay |
| `RelayRuns.GoneForGood` | server/server.go:257-283 | once a connection is gone nothing more is written on it, whatever happens |
| `RelayDelivery.LiveMessageComesTwice` | server/server.go:657-689 | the live case: the message is in the queue and not marked; the next authentication queues it again and only then marks it |
| `RelayRuns.RunKeepsHistory` | server/server.go:231-285 | in every run what each writer took and what still waits are, as far as messages go, exactly the logged entries for that connection, in order; no queue exceeds 256 |
| `RelayDelivery.StepKeepsBooksIff` | server/server.go:372-383 | one event keeps "marked exactly if handed out, once" if and only if no batch overflows its queue; at most 55 queued frames always leave room |
| `RelayDelivery.RunKeepsBooksIff` | server/server.go:955-1002 | over a run the rows marked stay the rows handed out, each once, if and only if every batch found room |
| `RelayDelivery.RunKeepsTracked` | server/server.go:965-1002 | over any run a message is handed out by an authentication or lost at the end of a batch exactly if it is marked, and only one of the two happens, once |
| `RelayDelivery.OverflowLosesMessage` | server/server.go:955-1002 | the overflow is reached: with 256 frames waiting a message is stored, its push dropped, and the next authentication marks it although no queue ever held it |
| `RelayDelivery.StepOfBooks` | server/server.go:333-384 | each event of the relay is, for rows and hand-outs, one store, one authentication or nothing |
| `RelayDelivery.RunPushesLiveIff` | server/server.go:657-689 | a message is in the log as pushed live if and only if some event relayed it to a live connection with room |
| `RelayRuns.RelayAppendsItsLog` | server/server.go:945-963 | relaying appends to every queue exactly the frames logged for it and opens or closes none |
| `Offline.RunConserves` | server/server.go:965-1027 | the same books on the table alone: over stores and authentications with at most 55 other frames queued, a row is marked exactly if an authentication handed it out, once |
| `Offline.AuthenticateConservedIff` | server/server.go:955-1002 | an authentication keeps those books if and only if the batch fits the queue behind the acknowledgement; 55 queued frames always leave room |
| `Offline.MarkedWereQueuedIff` | server/server.go:372-383 | all rows marked by an authentication were queued if and only if acknowledgement and batch fit the 256 slots |
| `Offline.RoundsDrainInOrder` | server/server.go:965-1002 | with a backlog of n rows the batches of k authentications are together exactly its first min(n, 200k) rows in time order, each once, and the rest stays |
| `Offline.RoundsReachQueuesInOrder` | server/server.go:955-1002 | and those are the frames the k queues get behind their acknowledgements, in that order, when each holds at most 55 others |
| `Offline.BacklogAfterAuthentication` | server/server.go:965-1002 | marking a batch takes exactly the first 200 rows out of the backlog |
| `Offline.BacklogIsSortedWaiting` | server/server.go:967-973 | the backlog is a permutation of the undelivered rows of the recipient, sorted by time |
| `Offline.BatchIsAddressed` | server/server.go:967-971 | a batch holds only rows of the table whose recipient is the peer and which are not marked |
| `Offline.BatchIsWhole` | server/server.go:967-971 | if there are at most 200 such rows the batch holds all of them |
| `Offline.AuthenticationTouchesOwnRows` | server/server.go:990-1002 | an authentication changes nothing but the mark, and only of unmarked rows addressed to its peer |
| `Offline.BacklogOfMarked` | server/server.go:990-1002 | marking rows removes exactly those from the backlog and keeps the order of the others |
| `Offline.StoredOnce` | server/server.go:1006-1027 | relaying an identifier again, with whatever contents, changes nothing |
| `Offline.SentAllIsPrefix` | server/server.go:955-963 | frames sent into a bounded queue enter as a prefix; the rest are dropped |
| `Offline.HandedOutIsWhatTheQueueGot` | server/server.go:955-1002 | the frames appended to the queue are those of the rows counted as handed out |
| `Registry.RegistryIsExact` | server/server.go:910-943 | after any run each key lists exactly its live authenticated connections, in order and without duplicates, and is absent iff it has none |
| `Registry.AuthenticateExactIff` | server/server.go:333-369 | an authentication keeps the table exact if and only if the connection is new or keeps its identity |
| `Registry.SecondIdentityStaysListed` | server/server.go:333-369 | two authentications of one connection reach the failing case: it stays listed under the key it no longer has |
| `Registry.AuthenticateIdempotent` | server/server.go:910-922 | authenticating again changes nothing |
| `Registry.DisconnectKeepsExact` | server/server.go:924-943 | a disconnect keeps the table exact |
| `Registry.LiveIsLastKey` | server/server.go:910-943 | in every run a connection is live exactly if it authenticated and has not gone since, under the identity it gave last |
| `Registry.FilterInPlace` | server/server.go:931-937 | the in-place filter of the connection slice leaves the sequence without the connection |
| `RelayServer.DeliveryReachesExactlyLive` | server/server.go:945-953 | in any reachable state of the table a frame delivered to a peer is offered once to each of its live connections and to no other queue |
| `RelayServer.PushedAllReaches` | server/server.go:945-963 | pushing to a list of distinct connections affects exactly their queues, once each |
| `RelayServer.Server.Send` | server/server.go:955-963 | a frame is appended if there is room and dropped otherwise |
| `RelayServer.Server.Register` | server/server.go:910-922 | the search loop and append equal the specified registration |
| `RelayServer.Server.Unregister` | server/server.go:924-943 | the filter in the slice of the entry and the removal of an empty one equal the specified unregistration |
| `RelayServer.Server.DeliverTo` | server/server.go:945-953 | the loop pushes to the listed connections and touches no other queue |
| `RelayServer.Server.StoreMessage` | server/server.go:1006-1027 | the search for the identifier and the append behind it: the first row of an identifier wins and a repeated one changes nothing |
| `RelayServer.Server.HandleRelay` | server/server.go:657-689 | stores, then fans out to the members but the sender, or to the recipient when the chat is unknown |
| `RelayServer.Server.DeliverOffline` | server/server.go:965-1002 | queues the batch row by row and marks every identifier it read |
| `RelayServer.Server.HandleAuth` | server/server.go:333-384 | registers, acknowledges, then delivers the backlog |
| `EventBus.EveryRunIsSafeAndComplete` | core/bus.go:29-85 | in every interleaving: no channel closed twice and no send on a closed one; the open channels are exactly those of the table and of pending closes; each subscriber has the attempted matching events in order minus those tried with 256 buffered; a publisher about to finish has itself tried each current subscriber exactly once if it wants the event and else not at all |
| `EventBus.SubscribersGetWhatTheyAsked` | core/bus.go:29-73 | from the Subscribe action that opened a channel: with types named only events of those types are tried or received there; a finishing publisher has tried its event there exactly once if no types were named or its type is among them, and else not at all |
| `EventBus.ReturnsOnlyWhenDone` | core/bus.go:34-50 | a call of Publish returns only when no channel is left before it |
| `EventBus.StartsWithTheTable` | core/bus.go:33-35 | and starts with all channels of the table |
| `EventBus.RunKeepsKinds` | core/bus.go:53-73 | over runs a channel has for good the types its Subscribe action named |
| `EventBus.UnsubscribeRemoves` | core/bus.go:75-85 | the locked part takes out exactly the entry, the close that follows ends exactly its channel |
| `EventBus.StepKeepsSafe` | core/bus.go:29-85 | every step keeps: channels of the table and of pending closes are open and all different, and every open channel is one of them, across the gap between unlock and close |
| `EventBus.BusNeverPanics` | core/bus.go:29-85 | the same over whole runs |
| `EventBus.RunKeepsComplete` | core/bus.go:29-51 | received plus buffered events equal the attempts that found room, over whole runs |
| `EventBus.ReadingTakesOldest` | core/bus.go:53-73 | a subscriber that keeps reading takes out what waits for it, oldest first |
| `EventBus.PublisherCanFinish` | core/bus.go:31-51 | a publisher gets to the end and releases the lock on its own steps alone, wherever it is |
| `EventBus.RunKeepsReached` | core/bus.go:29-51 | over whole runs each call of Publish has made no attempt at a channel still before it, and behind it exactly one, with its own event, if the channel wants it |
| `EventBus.BusObject.SubscribeTo` | core/bus.go:53-73 | replaces and closes an earlier channel of the same identifier and returns a new open one |
| `EventBus.BusObject.UnsubscribeFrom` | core/bus.go:75-85 | removes the entry and closes its channel, exactly when there is one |
| `EventBus.BusObject.Publish` | core/bus.go:29-51 | whatever the map order, each current subscriber that wants the event is tried once and no other channel changes |
| `MediaCache.PruneIsShortest` | storage/sqlite.go:594-623 | the evicted prefix is the shortest that brings the total to at most the limit; before the last eviction the total exceeded it; sizes add up |
| `MediaCache.JustUsedSurvives` | storage/sqlite.go:566-623 | what was just saved or just read survives a pruning that leaves room for it alone |
| `MediaCache.SavedIsMostRecent` | storage/sqlite.go:566-578 | a save makes its entry, with the new size, the most recent one and the only one of its hash, and keeps the others |
| `MediaCache.TouchedIsMostRecent` | storage/sqlite.go:580-584 | a read makes a listed entry the most recent one with its size and changes nothing otherwise |
| `MediaCache.DroppedOfJoined` | storage/sqlite.go:586-592 | a delete keeps the order of the other entries |
| `MediaCache.RefinementUnique` | storage/sqlite.go:566-623 | under strictly increasing clocks the table determines one recency list |
| `MediaCache.SavedRefines` | storage/sqlite.go:566-578 | a save moves its entry to the recent end |
| `MediaCache.TouchedRefines` | storage/sqlite.go:580-584 | a read moves a listed entry to the recent end and leaves others alone |
| `MediaCache.DroppedRefines` | storage/sqlite.go:586-592 | a delete drops exactly its entry |
| `MediaCache.MediaStore.SaveMedia` | storage/sqlite.go:566-578 | files, rows and recency list after a save and after a failure at each of its three writes; the store stays in order exactly under the condition below on the arguments and the table |
| `MediaCache.KeepsBackedIff` | storage/sqlite.go:566-578 | after a save every row has a file of its size if and only if the save succeeded or changed no file, or the hash had no row, or what ended up in its file has the old size |
| `MediaCache.FailedSaveBreaksStore` | storage/sqlite.go:566-578 | two saves under one hash reach the failing case: the second writes its file but not its row |
| `MediaCache.MediaStore.GetMedia` | storage/sqlite.go:580-584 | the row is touched whether or not the file reads, and a listed hash always reads |
| `MediaCache.MediaStore.DeleteMedia` | storage/sqlite.go:586-592 | file and entry go together |
| `MediaCache.MediaStore.PruneMediaCache` | storage/sqlite.go:594-623 | evicts exactly the pruned prefix of the recency list with its files; freed equals the drop in total size |
| `MediaCache.ByLastUse` | storage/sqlite.go:601-610 | ordering the rows by last use yields the recency list |
| `Calls.EveryCallRun` | media/call.go:341-452 | in every interleaving of offers, answers, candidates and hang-ups: applied ++ pending equals the accepted candidates in order, pending is empty once answered, none applied before the remote description; at most one close and one end event per session |
| `CallFates.EverySessionHasItsFate` | media/call.go:297-452 | in every interleaving each session is in exactly one of three situations: in the table or owned by a handler; closed once and announced once; or let go unclosed, exactly when its offer failed or another session replaced its entry |
| `CallFates.HangUpEndsSession` | media/call.go:553-574 | hanging up takes the session out of the table at once, and two further steps close and announce it |
| `CallFates.SecondOfferLetsGo` | media/call.go:341-405 | two offers of one name reach the second kind of letting go: the first session is out of the table, unclosed and unowned |
| `CallFates.FailedOfferIsLetGo` | media/call.go:341-389 | an offer whose remote description cannot be set reaches the first kind |
| `CallFates.StepFate` | media/call.go:297-452 | one atomic step moves a session between these situations only so |
| `Calls.CandidatesConserved` | media/call.go:383-452 | the candidate part over whole runs from any orderly state |
| `Calls.CompletedExchangeIsAnswered` | media/call.go:383-430 | in every run a session with a remote description and no handler at work for it is answered, nothing is pending and everything accepted is applied in order |
| `Calls.AnswerCompletes` | media/call.go:407-430 | an answer to a listed call whose description can be set ends with the exchange done and the pending candidates applied behind the others |
| `Calls.TrickleIsAccepted` | media/call.go:432-452 | a candidate for a listed call is accepted behind all before it, applied or buffered by the state of the exchange |
| `Calls.AcceptedAreBrought` | media/call.go:432-452 | over runs a session has accepted exactly the candidates whose handlers got through, in that order |
| `Calls.TeardownHappensOnce` | media/call.go:553-574 | a session is held by at most one table entry or one handler, closed at most once and announced at most once, after the close |
| `Calls.StepKeepsTeardown` | media/call.go:297-318 | one atomic step keeps that |
| `Calls.SessionObject.FlushCandidates` | media/call.go:394-401 | the flush loop applies the buffered candidates in order and empties the buffer |
| `Calls.SessionObject.HandleCandidate` | media/call.go:432-452 | buffers before the exchange is done, applies afterwards |
| `Packets.RoundTripIff` | transport/zerotier.go:397-452 | decoding an encoding followed by any bytes returns the packet if and only if its stamp is right, its body is below 2^32 bytes and body plus trailing length does not wrap below the body length; with a body below 2^32 bytes it is otherwise an error |
| `Packets.RoundTrip` | transport/zerotier.go:397-452 | every stamped packet below 2^32 body bytes comes back |
| `Packets.SuffixCanBreak` | transport/zerotier.go:442-446 | one trailing byte makes an encoding with a body of 2^32 - 1 bytes unreadable |
| `Packets.AcceptedIff` | transport/zerotier.go:414-452 | inputs below 2^32 bytes are accepted exactly if they extend an encoding with valid magic and version |
| `Packets.AcceptedIsEncoding` | transport/zerotier.go:414-452 | whatever is accepted, at any length, starts with the encoding of the packet returned |
| `Packets.NeverReadsPast` | transport/zerotier.go:442-449 | a body length that passes the check leaves room for body and code, even where the subtraction wraps |
| `Packets.CheckIsExact` | transport/zerotier.go:442-446 | for inputs below 2^32 bytes the wrapping comparison is the plain one |
| `Packets.MarshalPacket` | transport/zerotier.go:397-411 | the buffer appended field by field is the specified encoding |
| `Packets.EncodingStartsWithMsgr` | transport/zerotier.go:397-411 | every stamped packet starts with the letters MSGR and the version |
| `Packets.MinusOneOnTheWire` | transport/zerotier.go:397-411 | a negative time stamp has its sign bit first |
| `Packets.UnmarshalPacket` | transport/zerotier.go:414-452 | the reader moving over the input returns the specified result or error, never past the end |
| `Packets.MacInputInjective` | messenger/engine.go:1690-1696 | the authenticated header is the first 24 bytes of the encoding, and header ++ body is the same for two packets exactly if those fields and the body are |
| `Compression.CompressionRestores` | transport/compress.go:80-134 | either compressor is undone by Decompress on every input, at a cost of at most one byte |
| `Compression.PackedIsSmaller` | transport/compress.go:80-109 | data not compressed already takes one byte and the smaller of its own and its encoded length; the prefix names the algorithm exactly if that is the encoded one |
| `Compression.KnownFormatsStayRaw` | transport/compress.go:28-58 | data that starts with a listed magic is stored as it is |
| `Compression.DecompressFailsIff` | transport/compress.go:112-134 | decompression fails exactly on empty data, an unknown algorithm, or data the named library refuses |
| `Compression.IsAlreadyCompressed` | transport/compress.go:28-58 | found exactly if the data starts with a listed magic |
| `Compression.PrependAlgo` | transport/compress.go:169-174 | the prefix byte followed by the data |
| `Compression.Compress` | transport/compress.go:80-90 | the branch taken: stored as is when already compressed or not shrinking, else the encoder's output |
| `Compression.CompressFast` | transport/compress.go:93-109 | the same for the fast encoder |
| `Pipeline.PayloadIdentity` | messenger/engine.go:1213-1238 | compress, encrypt, wrap, marshal, unmarshal, parse, decrypt, decompress returns the payload, on all three direct-chat paths, and leaves both ends matched |
| `Pipeline.WireCarriesSealed` | messenger/engine.go:1213-1238 | on the wire, with a session or a known identity key, travels the compressed payload sealed under the key of that path and bound to the chat; without one, the compressed payload |
| `Pipeline.OnlyMessagesAreOpened` | messenger/engine.go:989-1048 | control packets, bytes that are no packet and bodies that are no message touch no session and yield no payload |
| `Pipeline.StreamIdentity` | messenger/engine.go:1050-1069 | a stream delivered in order and once each comes out as the payloads sent |
| `Pipeline.AnyOrderIdentity` | messenger/engine.go:1524-1533 | without a ratchet every message comes out whatever the order, losses and repeats |
| `Pipeline.EncryptionRestores` | messenger/engine.go:1476-1534 | decryptFromPeer undoes encryptForChat on matched ends |
| `Pipeline.StaticKeysAgree` | crypto/crypto.go:420-431 | both sides derive the same static key from one Diffie-Hellman agreement |
| `Pipeline.StaticKeyIsTheirs` | crypto/crypto.go:420-431 | two pairs have one static key only if they are the same pair, and the key does not give away the secret it came from |
| `Mentions.ParseMentions` | messenger/engine.go:1704-1725 | returns exactly, in order of offset, the maximal non-blank words of at least two bytes that start with @ at the text start or after a space or newline |
| `Mentions.SkipsNothing` | messenger/engine.go:1721 | the jump behind a word loses no candidate |
| `Mentions.MentionsApart` | messenger/engine.go:1704-1725 | mentions lie in bounds and never overlap or touch |
| `Mentions.MentionsDetermined` | messenger/engine.go:1704-1725 | there is only one list with that property |
| `SafetyNumbers.ComputeSafetyNumber` | crypto/crypto.go:69-92 | always exactly sixty decimal digits, which spell the two fingerprints in the order of the identifiers; the QR payload is the version tag and both keys in that order |
| `SafetyNumbers.SymmetricIff` | crypto/crypto.go:67-92 | both users compute the same number if and only if their identifiers differ or their keys are equal |
| `SafetyNumbers.SmallerComesFirst` | crypto/crypto.go:74-90 | the party with the smaller identifier comes first, in the digits and in the QR payload |
| `SafetyNumbers.SameDigestIsCollision` | crypto/crypto.go:94-106 | two parties with keys of equal length have the same digest only if they are the same or two different calls on the way collide in the hash |
| `SafetyNumbers.SafetyNumberDetermined` | crypto/crypto.go:69-92 | the two parties determine the number: what the computation promises leaves no choice |
| `SafetyNumbers.SameDigitsIff` | crypto/crypto.go:108-117 | a substituted remote key shows the same digits if and only if its fingerprint agrees in all six groups modulo 100000 |
| `SafetyNumbers.SpellsIff` | crypto/crypto.go:108-117 | two digit strings are equal exactly if all twelve groups are |
| `SafetyNumbers.FingerprintToDigits` | crypto/crypto.go:108-117 | twelve groups of five digits, each standing for its five bytes modulo 100000; every slice in bounds |
| `SafetyNumbers.IteratedHash` | crypto/crypto.go:94-106 | the loop yields the first 30 bytes of the specified number of rounds |
| `SafetyNumbers.LessIsTotal` | crypto/crypto.go:74-80 | identifiers compare by a strict total order on bytes |
| `SafetyNumbers.LessIff` | crypto/crypto.go:77 | an identifier is smaller exactly if behind a common beginning it ends or has the smaller byte |
| `SafetyNumbers.PaddedWord` | crypto/crypto.go:112-113 | three zero bytes in front give an eight-byte word of the same value |
| `Decimals.PaddedToFive` | crypto/crypto.go:114 | a zero-padded numeral is five digits wide exactly below 100000, all digits, and stands for its number |

## Left out

- Network transports, sockets, WebSocket pumps, C bindings, media devices, user interfaces,
  command line and installers: input, output and foreign calls.
- Real cryptography, compression, JSON and SHA-512: functions with the laws named above.
- The SQL engine, connection pooling and database failures other than a failed save; tables are
  maps and sequences. The text index is not modelled.
- The initial agreement of two sessions (crypto/crypto.go:341-384) and the handshake: the
  ratchet theorems start from a state in which the chains meet. Public keys of later steps have
  no carrier in the code; the model puts them into the same FIFO as the packets.
- Loss, reordering and duplication on the ratchet path: the receiving chain moves before
  decryption, so a lost packet desynchronises the pair. Sending over both transports at once,
  which duplicates every message, is excluded for the same reason.
- Ratchet.SessionKey.Advance: the time stamp `UpdatedAt` is not modelled; nothing reads it.
- Ratchet.SessionKey.DHRatchet: the time stamps `UpdatedAt` and `LastRotatedAt` are not modelled.
- Unwrapping of a received sender-key distribution (messenger/engine.go:1447-1474), which derives
  its key from the local public key; lockstep starts from a chain key that has arrived.
- Rotation of the other members' own chains after a removal: the group theorems are about the
  chain of the local sender.
- Chats with end-to-end encryption switched off, permission checks, and message saves that fail
  around a group send.
- Two operations of one engine at the same time; each group operation is one step.
- Register and unregister interleaved inside their load and store; each is one step.
- Checks of timestamps, users and tokens on authentication, expiry of relayed messages, and a
  failed insertion of a relayed message.
- RelayDelivery.DeliveryIsExactIff: the writer that drains a queue runs between events, not between the
  sends of one batch, which is the worst case for room; a connection that is gone takes no frames.
- Frames lost after they entered a queue, when the connection ends before they are written.
- Error text, speed and percentage of a transfer, and the moments at which progress is published.
- Uploads.StoredIsUploaded: the chunk store is a map that only this transfer writes to while it
  runs; pruning of chunks by the media cache is not interleaved with it.
- The directory layout of media files; a file that disappears from disk behind the table.
- Offline.RoundsDrainInOrder: rows with the same `sent_at` come in the order of their insertion;
  the query leaves their order open.
- User accounts, passwords, sticker packs, settings, presence, statistics and synchronisation: records
  that are written and read back, with no protocol between several steps.
