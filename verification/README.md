# Verified core of a push-to-talk radio

This project models the stateful cores of the radio in Dafny and proves what they keep over every
input and every run.

| module | models |
|---|---|
| `Reorder`, `ReorderTheorems`, `DecoderLog` | the per-sender receive buffer: reorder, FEC and PLC repair, resync, epoch resets |
| `Playout` | the playout queue and the 20 ms pacer |
| `Crypto`, `CryptoTheorems` | nonce allocation and the sliding replay window |
| `PacketQueue` | the bounded, expiring packet queue |
| `Transport` | live and staged keys, and the fan-out of one ciphertext to three planes |
| `Rekey` | the staged hybrid rekey between two parties over a lossy network |
| `RelayRoom`, `PushLimits` | the relay's ring buffer, catch-up replay and wake-push budget |
| `Denoiser`, `DenoiserTheorems` | the FIFO and overlap-add plumbing around the block transform |
| `BitReversal` | the in-place permutation at the head of the FFT |
| `Calendar`, `UtcText` | the conversion of timestamps to dates, and its printed form |
| `AuditChain` | the hash-chained audit log |
| `CapabilityToken`, `Base64Url`, `Utf8` | the relay's tokens: printing, parsing, binding |
| `Common`, `Text` | options, results, sequences and filters, decimal numerals |

Where the source updates an object in place the model is a class with the same fields, and each method
is proved equal to a function on values; the theorems about runs are lemmas on that function. Clocks,
socket outcomes, key agreement, redaction, the hash functions and the audio codec are parameters. The
hash functions may be any functions: a result that needs two texts not to collide names the two texts.
AES-GCM is an ideal AEAD: a sealed body names its key, its nonce and its plaintext, and opens for those
alone.

Some things the code or its comments suggest are not so, or are so only under a condition. Each is
proved with the exact condition:

- A packet queue with a cap of zero holds one packet (`CapHoldsUnlessZero`), and its overflow counter
  counts every push. Pushed = delivered + dropped + stale + cleared + queued therefore holds, on the
  queue's own counters, if and only if the cap is not zero or nothing was pushed (`ConservationIff`).
- A full reorder buffer gives up its earliest packet even for the arrival the stream is waiting for
  (`FullBufferLosesEarliest`). Packets that arrive once each within the wait interval are decoded as if
  sent in order if and only if none arrives while 32 earlier arrivals wait for a missing number
  (`InvisibleIffUndisturbed`). That covers every order of 32 packets (`ShortBurstIsInvisible`) and not
  of 33 (`ThirtyThreeAreTooMany`).
- The comment on the responder's CONFIRM handler says that it arms the staged key and then sends the ACK;
  the code sends the ACK first. In between, the initiator may transmit on a key that the responder
  cannot open yet (`AckBeforeArm`); `ReceivableIff` says in which states exactly.
- A frame is delivered twice in three cases. At once, if and only if the live and the staged session both
  accept it, so only if both hold its key (`SecondCopyAccepted`). Later, while its key is not installed
  again, if and only if the key is still in use and 8192 further frames under it were accepted
  (`AcceptedAgainIff`). And after its key is installed again, because the new session's window is empty
  (`ReinstallForgets`).
- While the initiator is on the new key and the responder is not, the initiator cannot read the
  responder (`InitiatorHearsOnlySameKey`).
- Retention by timestamp breaks the audit chain exactly when the kept events do not stand next to each
  other (`RetainKeepsChainIff`). Three appends on a clock that runs back once are enough
  (`BackwardClockBreaksChain`).
- The audit hash joins its fields with `|`, which event and detail may contain. Rewriting both at once
  stays undetected if and only if the joined text is unchanged or the hash collides (`JointTamper`).
- Base64url text is read back if and only if it is not empty and does not begin with a byte-order mark,
  which the decoder drops (`Base64UrlRoundTrip`). No peer id begins with one.
- The replay wrapper is reversible if and only if the peer id is shorter than 65536 bytes
  (`ReplayFrameRoundTrip`); the relay always sends an empty id.

## Model

| member | source | states |
|---|---|---|
| `Reorder.SenderDecodeState.constructor` | android-native/src/audio_pipeline.rs:512-521 | a new buffer is empty, at rest, and has asked nothing of the decoder |
| `Reorder.SenderDecodeState.ResetForEpoch` | android-native/src/audio_pipeline.rs:554-560 | exactly one decoder reset, nothing held, no position and no timer kept from the old stream, nothing emitted |
| `Reorder.SenderDecodeState.Ingest` | android-native/src/audio_pipeline.rs:523-552 | refines `Ingested`: a new epoch or a rollback over 32 restarts, a smaller one is dropped, the rest is held and drained; what it returns is exactly what it adds to the emitted frames |
| `Reorder.SenderDecodeState.DrainDecodable` | android-native/src/audio_pipeline.rs:562-647 | the two-turns-per-repair loop terminates and equals the one-block-per-packet `Drain`, whatever the clock shows in each turn; returned frames are the emitted ones |
| `Reorder.SenderDecodeState.Turn` | android-native/src/audio_pipeline.rs:567-645 | one loop turn keeps what the drain will do in all; it stops only when there is nothing more to do, else fewer packets are held or the hole is smaller |
| `Reorder.SenderDecodeState.WaitOrRepair` | android-native/src/audio_pipeline.rs:585-642 | the earliest packet lies beyond the expected one, so the guards on lines 591 and 602 never fire; it waits, keeping the packets, or shrinks the hole |
| `Reorder.SenderDecodeState.DecodeHeld` | android-native/src/audio_pipeline.rs:576-582 | the expected packet goes to the decoder with its own bytes, number and stamp, and stops the timer |
| `Reorder.SenderDecodeState.Conceal` | android-native/src/audio_pipeline.rs:622-632 | one PLC frame for every missing number, time stamps counted back from the next packet, the position on the last of them |
| `Reorder.SenderDecodeState.RepairHole` | android-native/src/audio_pipeline.rs:599-644 | FEC from the successor for a hole of one, PLC up to the limit, reset above it, and no fourth case: line 644 is unreachable |
| `Reorder.RepairRefines` | android-native/src/audio_pipeline.rs:599-642 | repairing and then delivering in two turns is one `Advance` of the specification, and the hole shrinks |
| `Reorder.DeliverRefines` | android-native/src/audio_pipeline.rs:567-582 | the packet next in sequence is the earliest one held, and delivering it is one `Advance` |
| `Reorder.WaitRefines` | android-native/src/audio_pipeline.rs:595-598 | starting or keeping the timer is where a drain ends, and draining again at that moment changes nothing |
| `Reorder.DrainRests` | android-native/src/audio_pipeline.rs:546-647 | after a drain every held number is ahead of the stream, at most 32 are held, and either none is held or a timer younger than the wait runs on a real hole |
| `Reorder.AdmitReady` | android-native/src/audio_pipeline.rs:533-550 | after eviction and insert the new packet is held, at most 32 are, and all of them are ahead of the stream |
| `Reorder.Ingested` | android-native/src/audio_pipeline.rs:523-552 | every arrival leaves a rested buffer |
| `Reorder.Run` | android-native/src/audio_pipeline.rs:523-647 | every run of arrivals and timer drains leaves a rested buffer |
| `ReorderTheorems.RunEmitsBlocks` | android-native/src/audio_pipeline.rs:533-647 | in any run the decoder log is a chain of blocks whose repair fits the hole exactly: one lost is one FEC from the packet delivered next, two to the limit are that many PLCs, only more or a restart resets |
| `ReorderTheorems.EmittedStreamIsGapFree` | android-native/src/audio_pipeline.rs:562-647 | in any run from the start, frames with no decoder reset between them carry consecutive numbers |
| `ReorderTheorems.NoNumberTwice` | android-native/src/audio_pipeline.rs:533-545 | with no epoch change and no rollback over 32 the emitted numbers strictly rise, across repairs and resyncs |
| `ReorderTheorems.DeliveredWereReceived` | android-native/src/audio_pipeline.rs:523-647 | every packet held or delivered arrived with that epoch, number and content |
| `DecoderLog.RealsCameIn` | android-native/src/audio_pipeline.rs:576-582 | in any run, every packet the decoder is asked to decode is an arrival: same epoch, number, time stamp and bytes |
| `DecoderLog.RunRepairs` | android-native/src/audio_pipeline.rs:599-632 | in any run, on the log alone: a frame that is not a decoded packet is either a lone FEC frame between two decoded packets, made from the bytes of the second and stamped 20 ms before it, or one of two to the limit of PLC frames that count up in number and 20 ms steps to the next packet |
| `DecoderLog.ResetsOnlyForLargeHoles` | android-native/src/audio_pipeline.rs:634-642 | while no arrival restarts the stream, a reset lies between two decoded packets with more numbers missing than the limit, and more than one |
| `DecoderLog.RestartArrives` | android-native/src/audio_pipeline.rs:533-545 | an arrival of another epoch or from more than 32 back adds exactly a reset and itself to the log and leaves nothing held |
| `DecoderLog.OldCopyIgnored` | android-native/src/audio_pipeline.rs:537-544 | an arrival up to 32 back changes nothing |
| `ReorderTheorems.DrainKeepsPackets` | android-native/src/audio_pipeline.rs:562-647 | a drain loses no held packet: each stays unchanged or is in the decoder log |
| `ReorderTheorems.TickDelivers` | android-native/src/audio_pipeline.rs:718-737 | a tick no earlier than the wait after the timer started delivers at least one packet |
| `ReorderTheorems.TicksEmptyBuffer` | android-native/src/audio_pipeline.rs:718-737 | with no more arrivals, as many well-spaced ticks as packets held (at most 32) empty the buffer |
| `ReorderTheorems.TicksLoseNothing` | android-native/src/audio_pipeline.rs:718-737 | over any ticks a held packet stays held until it has gone to the decoder unchanged |
| `ReorderTheorems.ReorderingIsInvisible` | android-native/src/audio_pipeline.rs:523-647 | any number of packets within one wait interval, in any order, with duplicates and ticks between, reach the decoder exactly as if sent in order, with no repair and no reset, as long as the order of arrival displaces fewer than 32 at a time |
| `ReorderTheorems.ShortBurstIsInvisible` | android-native/src/audio_pipeline.rs:523-647 | up to 32 packets do so in every order and with any duplicates |
| `ReorderTheorems.InvisibleIffUndisturbed` | android-native/src/audio_pipeline.rs:546-647 | when each number arrives once, the decoder log is the in-order one if and only if no packet arrives while 32 earlier arrivals wait for a missing number |
| `ReorderTheorems.ThirtyThreeAreTooMany` | android-native/src/audio_pipeline.rs:546-550 | from every idle buffer, numbers 2 to 33 and then 1 lose number 2 for good |
| `ReorderTheorems.FullBufferLosesEarliest` | android-native/src/audio_pipeline.rs:546-550 | with 32 held, any further arrival of another number costs the earliest held packet: it is neither kept nor decoded |
| `Playout.PlayoutPacer.constructor` | android-native/src/audio_pipeline.rs:477-482 | the first write is due at once |
| `Playout.PlayoutPacer.WaitBeforeWrite` | android-native/src/audio_pipeline.rs:484-497 | a write is released no earlier than its target; the target moves one period on, from the clock when more than 200 ms behind |
| `Playout.PlayoutRateBound` | android-native/src/audio_pipeline.rs:471-498 | in any run, k writes that enter at or after s and are released by t satisfy 20 (k - 1) <= (t - s) + 200 ms, whatever the sleeps overshoot |
| `Playout.PlayoutKeepsPace` | android-native/src/audio_pipeline.rs:484-497 | with exact sleeps and no write more than 200 ms late, write k is released 20 ms times k after the first is due, or when it enters if that is later |
| `Playout.LatePlayoutRestarts` | android-native/src/audio_pipeline.rs:488-495 | a write more than 200 ms late goes at once and starts a new 20 ms schedule |
| `Playout.PlayoutQueue.EnqueuePlayout` | android-native/src/audio_pipeline.rs:678-683 | the queue is the newest stretch of everything enqueued, at most 48 frames |
| `Playout.PlayoutQueue.PopPlayout` | android-native/src/audio_pipeline.rs:751-753 | frames leave oldest first, and an empty queue yields nothing |
| `Crypto.CryptoSession.constructor` | core/src/crypto.rs:90-100 | a new session has counter 0 and an empty window |
| `Crypto.CryptoSession.NextNonce` | core/src/crypto.rs:167-175 | the next counter under the prefix, or a refusal that changes nothing at 2^32 - 1 |
| `Crypto.CryptoSession.Encrypt` | core/src/crypto.rs:111-124 | one nonce per call, used up even when the cipher refuses the plaintext as too long; the window is untouched |
| `Crypto.CryptoSession.Decrypt` | core/src/crypto.rs:127-158 | the hash set holds exactly what the deque holds, the deque is duplicate-free and bounded; short, forged and repeated frames leave both unchanged |
| `Crypto.WindowKeepsForm` | core/src/crypto.rs:144-155 | no frame breaks the bound or brings in a duplicate |
| `CryptoTheorems.NonceInjective` | core/src/crypto.rs:167-175 | a nonce determines its prefix and its counter |
| `CryptoTheorems.EncryptAt` | core/src/crypto.rs:111-124 | the k-th of any run of encryptions is what a session k nonces further on makes of its own plaintext, refusals included |
| `CryptoTheorems.NonceSupply` | core/src/crypto.rs:160-175 | the k-th encryption succeeds if and only if fewer than 2^32 - 1 nonces were issued and the cipher takes the plaintext; after that every one is refused |
| `CryptoTheorems.NoncesAreUnique` | core/src/crypto.rs:111-175 | frames of one session, or of sessions with different prefixes, never share a nonce |
| `CryptoTheorems.NonceLayout` | core/src/crypto.rs:167-175 | frame k of a run carries twelve bytes: the prefix, and the counter k + 1 further on, lowest byte first |
| `CryptoTheorems.ForeignFrameRefused` | core/src/crypto.rs:127-141 | a frame under another key, with another nonce, with another body or too short is refused and changes nothing |
| `CryptoTheorems.WindowRefinesHistory` | core/src/crypto.rs:127-158 | in every run the bounded window gives the same answers as remembering every accepted nonce and looking at the last 8192, and holds exactly those, in order |
| `CryptoTheorems.FreshFrame` | core/src/crypto.rs:111-158 | a frame fresh from a sender with the same key opens to its plaintext and leaves the sender's later nonces unseen |
| `CryptoTheorems.PeerReadsEverything` | core/src/crypto.rs:111-158 | every frame a session seals, a peer with the same key decrypts to its own plaintext, over any run |
| `PacketQueue.PacketQueue.constructor` | android-native/src/cellular_transport.rs:123-131 | a new queue is empty with both counters at zero |
| `PacketQueue.PacketQueue.Push` | android-native/src/cellular_transport.rs:134-152 | stale packets leave, then the oldest if full, then the new one joins; the overflow counter moves exactly when the queue is at its cap, and the accounts of what happened to every packet stay exact |
| `PacketQueue.PacketQueue.MakeRoom` | android-native/src/cellular_transport.rs:141-150 | room for one more, at the cost of the oldest packet only if full; the counter moves even when, with a cap of zero, nothing leaves |
| `PacketQueue.PacketQueue.Pop` | android-native/src/cellular_transport.rs:171-175 | the first packet within its age, every packet before it being past its age; nothing only when all are past it |
| `PacketQueue.PacketQueue.Clear` | android-native/src/cellular_transport.rs:183-185 | every queued packet is accounted for as cleared |
| `PacketQueue.PacketQueue.DropStale` | android-native/src/cellular_transport.rs:196-209 | exactly the stale packets at the front leave, and are counted as stale |
| `PacketQueue.FatesAddUp` | android-native/src/cellular_transport.rs:134-209 | every packet that left has exactly one of four fates |
| `PacketQueue.ConservationIff` | android-native/src/cellular_transport.rs:134-209 | at every moment of every run, pushed = delivered + overflow counter + stale counter + cleared + queued if and only if the cap is not zero or nothing was pushed |
| `PacketQueue.DeliveredInOrder` | android-native/src/cellular_transport.rs:134-209 | delivered packets are an in-order subsequence of the pushed ones |
| `PacketQueue.CapHoldsUnlessZero` | android-native/src/cellular_transport.rs:138-152 | a push keeps every queue within its cap if and only if the cap is not zero |
| `PacketQueue.OverflowDropsOldest` | android-native/src/cellular_transport.rs:138-152 | a push costs a packet only when the queue is full, and then the oldest |
| `Transport.TransportManager.constructor` | android-native/src/transport.rs:62-79 | no key, no plane, nothing sent |
| `Transport.TransportManager.SetCrypto` | android-native/src/transport.rs:98-102 | the session becomes live and the staged one is dropped |
| `Transport.TransportManager.ArmPendingRx` | android-native/src/transport.rs:106-109 | the session is staged for receiving and the live key stays |
| `Transport.TransportManager.DiscardPendingRx` | android-native/src/transport.rs:111-115 | only the staged session goes |
| `Transport.TransportManager.DecryptLiveOrPending` | android-native/src/transport.rs:248-268 | the live key is tried first; a frame that only the staged key accepts makes it live; a failure leaves keys and windows as they were |
| `Transport.TransportManager.Send` | android-native/src/transport.rs:272-331 | one nonce per call, the same ciphertext appended to every plane that takes it and nothing to the others; success if and only if some plane took it |
| `Transport.TransportManager.FanOut` | android-native/src/transport.rs:293-324 | the same frame goes to exactly the planes that take it |
| `Transport.TransportManager.OfferRelay` | android-native/src/transport.rs:307-319 | the relay takes the frame if and only if it is connected and allowed, holds at most 24 frames and the frame has at most 1400 bytes |
| `Transport.TransportManager.OfferBluetooth` | android-native/src/transport.rs:321-324 | Bluetooth takes the frame if and only if it is connected and allowed |
| `Transport.SentIsReceived` | android-native/src/transport.rs:248-331 | what one end sends the other reads, the very plaintext, if it holds the key live or staged and has not seen the nonce, and that key is then live |
| `Transport.ReadIsGenuine` | android-native/src/transport.rs:248-268 | what is read is what a key held here opens; a refused frame changes neither keys nor windows |
| `Transport.ReceivedKept` | android-native/src/transport.rs:248-268 | receiving keeps both sessions well formed |
| `Transport.RunPlaces` | android-native/src/transport.rs:98-115 | over any run, the accepted nonce stands exactly as far back in the live window as frames under its key were accepted since, and falls out after 8192 |
| `Transport.AtMostOnce` | android-native/src/transport.rs:248-331 | once accepted, by the live or by the staged session, a frame is refused in every later state of any run, promotion included, with fewer than 8192 further frames accepted under its key and that key not installed again |
| `Transport.AcceptedAgainIff` | android-native/src/transport.rs:248-331 | after a frame is accepted, in any run that does not install its key again and in which no copy got through yet, the next copy is accepted if and only if the key is still live and 8192 further frames under it were accepted |
| `Transport.ReinstallForgets` | android-native/src/transport.rs:117-122 | after its key is installed again a frame is accepted if and only if the new session has not seen it |
| `Transport.SecondCopyAccepted` | android-native/src/transport.rs:248-268 | right after a frame is accepted, a second copy is accepted if and only if the live and the staged session both accept the frame |
| `Rekey.JniAppState.constructor` | android-native/src/jni_bridge.rs:630-634 | no handshake in progress |
| `Rekey.JniAppState.HandshakeInit` | android-native/src/jni_bridge.rs:2529-2557 | with a pre-shared key a new secret replaces any older one; without one nothing changes |
| `Rekey.JniAppState.HandshakeRespond` | android-native/src/jni_bridge.rs:2566-2621 | the session is staged and no transport key changes; a refused message changes nothing |
| `Rekey.JniAppState.HandshakeComplete` | android-native/src/jni_bridge.rs:2628-2680 | the secret is used up even when the key agreement fails; the transport keys stay |
| `Rekey.JniAppState.HandshakeConfirm` | android-native/src/jni_bridge.rs:2685-2704 | the staged session moves to receive-only, or is used up when no state machine exists; a second call does nothing |
| `Rekey.JniAppState.HandshakeInstallAck` | android-native/src/jni_bridge.rs:2708-2727 | the staged session becomes live, or is used up when no state machine exists; a second call does nothing |
| `Rekey.JniAppState.HandshakeDiscard` | android-native/src/jni_bridge.rs:2731-2747 | all handshake state goes, and the receive-only session where a state machine exists; the live key stays |
| `Rekey.StepsAreOneShot` | android-native/src/jni_bridge.rs:2628-2727 | completing, confirming and acknowledging do nothing the second time; the other steps, and all of them without a state machine, leave the transport keys alone |
| `Rekey.DiscardEndsAttempt` | android-native/src/jni_bridge.rs:2731-2747 | after a discard the live key is as before, no staged key is left, and no later message of the attempt changes anything |
| `Rekey.StepKeepsInv` | android-native/src/jni_bridge.rs:2529-2727 | every protocol step, loss, retry, spoken and heard frame keeps the two-party invariant |
| `Rekey.ReachableInv` | android-native/src/jni_bridge.rs:2529-2727 | the invariant holds after every schedule |
| `Rekey.RekeyNeverLosesInitiator` | android-native/src/transport.rs:98-115 | in every reachable state the responder holds the initiator's transmit key; between arming steps it receives on it; it transmits on the new key only if the initiator does |
| `Rekey.ReceivableIff` | android-app/app/src/main/java/com/sassyconsulting/sassytalkie/PttCoordinator.kt:1434-1457 | in a reachable state the responder can open the initiator's frames if and only if it is not so that the initiator has installed and the responder has yet to arm |
| `Rekey.AckBeforeArm` | android-app/app/src/main/java/com/sassyconsulting/sassytalkie/PttCoordinator.kt:1444-1451 | because the ACK leaves first, such a state is reached from every start, and arming ends it |
| `Rekey.AcceptedFrameAgrees` | android-native/src/transport.rs:254-262 | one accepted new-key frame puts both parties on the new key |
| `Rekey.NextFrameAgrees` | android-native/src/transport.rs:248-268 | once the initiator has installed and the responder has armed, the next spoken frame is read and brings agreement |
| `Rekey.InitiatorHearsOnlySameKey` | android-native/src/transport.rs:98-102 | the initiator reads a new frame of the responder if and only if both transmit on the same key |
| `Rekey.RetryCompletes` | android-app/app/src/main/java/com/sassyconsulting/sassytalkie/PttCoordinator.kt:1434-1493 | whatever was lost before, one CONFIRM retry that gets through, its ACK and one spoken frame put both parties on the new key |
| `RelayRoom.TrimmedIsLongest` | cloudflare-worker/src/ptt-relay.js:456-463 | trimming keeps the longest suffix that meets both caps |
| `RelayRoom.TrimmedAppend` | cloudflare-worker/src/ptt-relay.js:448-463 | trimming after every append keeps what trimming the whole history would keep |
| `RelayRoom.NewerIsSuffix` | cloudflare-worker/src/ptt-relay.js:731-735 | on a clock that does not run backwards the frames newer than the floor are a suffix |
| `RelayRoom.CatchUpReplaysRecentHistory` | cloudflare-worker/src/ptt-relay.js:448-469 | a catch-up replays, of everything stored since the last release, exactly the frames newer than the cutoff and than 30 s ago from which on the history has at most 1500 frames and 2 MiB |
| `RelayRoom.BytesIsSum` | cloudflare-worker/src/ptt-relay.js:452-462 | the size compared with the byte cap is the sum of the frame lengths |
| `RelayRoom.PttRoom.constructor` | cloudflare-worker/src/ptt-relay.js:192-210 | an empty ring, a closed window, an unused budget |
| `RelayRoom.PttRoom.OpenWindow` | cloudflare-worker/src/ptt-relay.js:569-569 | the window opens for 30 s and the ring stays |
| `RelayRoom.PttRoom.StoreFrame` | cloudflare-worker/src/ptt-relay.js:448-469 | in an open window the ring is the longest fitting suffix of the history with the frame appended, the shadow count its true size; a lapsed window releases everything |
| `RelayRoom.PttRoom.Snapshot` | cloudflare-worker/src/ptt-relay.js:727-736 | the snapshot is the buffered frames with a stamp above the cutoff and above 30 s ago, in arrival order |
| `RelayRoom.PttRoom.EnterPush` | cloudflare-worker/src/ptt-relay.js:652-657 | the window is renewed when over 60 s old; the call goes on only within the budget |
| `RelayRoom.PttRoom.TryPush` | cloudflare-worker/src/ptt-relay.js:687-697 | one row: the new budget and outcome that the push theorems are about, and a push opens the window |
| `RelayRoom.ReplayFrameRoundTrip` | cloudflare-worker/src/ptt-relay.js:159-168 | frame and peer id are recovered if and only if the id is shorter than 65536 bytes |
| `RelayRoom.ReplaySendsPrefix` | cloudflare-worker/src/ptt-relay.js:727-760 | whatever is stored, trimmed or released meanwhile, a replay sends a prefix of its snapshot, in order |
| `RelayRoom.ReplaySendsAll` | cloudflare-worker/src/ptt-relay.js:727-760 | if no send fails it sends the whole snapshot |
| `RelayRoom.ReplayedFramesAreReadable` | cloudflare-worker/src/ptt-relay.js:727-760 | each frame sent gives its own buffered frame back, with an empty peer id |
| `PushLimits.TakeKeepsInv` | cloudflare-worker/src/ptt-relay.js:644-715 | every turn of every suspended call keeps budget, window and stamps exact |
| `PushLimits.RunKeepsInv` | cloudflare-worker/src/ptt-relay.js:644-715 | they are exact after every interleaving |
| `PushLimits.PushesBetweenResets` | cloudflare-worker/src/ptt-relay.js:652-657 | at most 30 pushes between window resets, and stamps of one peer at least 10 s apart, for every interleaving |
| `PushLimits.PushesPerMinute` | cloudflare-worker/src/ptt-relay.js:644-715 | at most 60 pushes in any 60 s on a clock that does not run backwards |
| `PushLimits.EnterExactly` | cloudflare-worker/src/ptt-relay.js:652-657 | after any interleaving, an entering call resets the window if and only if the last reset is more than 60 s back, and goes on if and only if fewer than 30 pushes were made since |
| `PushLimits.RowExactly` | cloudflare-worker/src/ptt-relay.js:687-697 | after any interleaving, a row adds a push if and only if its call is live, the peer absent, fewer than 30 pushes made since the last reset and the peer's last stamp at least 10 s older; the call ends only on an absent peer with the budget spent |
| `Denoiser.NoiseSuppressor.constructor` | android-native/src/audio_effects.rs:294-322 | an empty input, 256 zeros primed in the output |
| `Denoiser.NoiseSuppressor.DenoiseFrame` | android-native/src/audio_effects.rs:427-495 | in place equals the frame function; switched off it touches neither state nor samples |
| `Denoiser.NoiseSuppressor.PushInput` | android-native/src/audio_effects.rs:443-446 | the normalised samples join the input in order |
| `Denoiser.NoiseSuppressor.OneBlock` | android-native/src/audio_effects.rs:452-476 | one analysis block: the accumulated first half leaves, the second half stays, one hop is consumed |
| `Denoiser.NoiseSuppressor.PullOutput` | android-native/src/audio_effects.rs:482-493 | exactly one sample per input sample, silence where the queue is dry |
| `DenoiserTheorems.BlockTracks` | android-native/src/audio_effects.rs:452-476 | each block advances the state to the next point of the whole-input reference |
| `DenoiserTheorems.AllBlocksTrack` | android-native/src/audio_effects.rs:452-476 | the loop runs as many windows as the input so far has |
| `DenoiserTheorems.FrameTracks` | android-native/src/audio_effects.rs:427-495 | each frame returns the next stretch of the reference; the output never runs dry |
| `DenoiserTheorems.ReferenceGrows` | android-native/src/audio_effects.rs:301-313 | more input never changes what has been handed out |
| `DenoiserTheorems.FramesMatchReference` | android-native/src/audio_effects.rs:427-495 | however the input is cut, the output is 256 zeros and the overlap-add stream, cut to the input's length |
| `DenoiserTheorems.ChunkingInvariance` | android-native/src/audio_effects.rs:427-495 | two ways of cutting the same input give the same output |
| `BitReversal.RevInvolutive` | android-native/src/audio_effects.rs:512-525 | reversing the bits twice gives the number back |
| `BitReversal.RevReversesBits` | android-native/src/audio_effects.rs:512-525 | bit k of the reversed index is bit p - 1 - k of the index |
| `BitReversal.CarryTurn` | android-native/src/audio_effects.rs:515-520 | what one turn of the carry loop does to the reversed index |
| `BitReversal.NextReversed` | android-native/src/audio_effects.rs:515-520 | the carry loop turns the reverse of i - 1 into the reverse of i, and terminates |
| `BitReversal.BitReverse` | android-native/src/audio_effects.rs:512-525 | for every power-of-two length both arrays end with the old element rev(i) at place i |
| `BitReversal.PermutedTwice` | android-native/src/audio_effects.rs:512-525 | running it twice restores the array |
| `Calendar.DayNumberNext` | core/src/audit.rs:227-240 | the reference count of days grows by one from each Gregorian date to the next |
| `Calendar.YearOfEraCorrect` | core/src/audit.rs:232-232 | the year-of-era formula finds the year that holds the day, for all 146097 days of an era |
| `Calendar.CivilParts` | core/src/audit.rs:228-240 | era, year and day of era determine the date, for negative days too |
| `Calendar.ConsecutiveDays` | core/src/audit.rs:228-240 | consecutive day numbers map to consecutive valid dates |
| `Calendar.CivilIsInverse` | core/src/audit.rs:228-240 | every day maps to a valid date, whose count of days from 1970-01-01 is that day |
| `Calendar.NoOverflow` | core/src/audit.rs:215-240 | for every u64 timestamp no intermediate value leaves its fixed-width type |
| `Calendar.UtcRoundTrip` | core/src/audit.rs:215-225 | the fields are a valid time of a valid date and determine the timestamp |
| `UtcText.UtcTextReads` | core/src/audit.rs:215-225 | read from its end, the text has year, month, day, hour, minute, second and millisecond in the places of the format, with its separators |
| `UtcText.UtcTextInjective` | core/src/audit.rs:215-225 | the printed text determines the timestamp, to the millisecond and for years of any length |
| `AuditChain.VerifyEvents` | core/src/audit.rs:157-174 | true if and only if every event carries its own hash and names its predecessor's |
| `AuditChain.ChainSlice` | core/src/audit.rs:157-174 | every stretch of a valid chain is valid |
| `AuditChain.AuditChain.constructor` | core/src/audit.rs:40-45 | an empty chain with room for at least one event |
| `AuditChain.AuditChain.Append` | core/src/audit.rs:59-80 | the record holds the caller's stamp and event text and the redacted detail, names the last event's hash and carries its own; the newest events up to the cap are kept, the record last |
| `AuditChain.AuditChain.Verify` | core/src/audit.rs:82-84 | true if and only if the stored events form a chain, in any state |
| `AuditChain.AuditChain.RetainSince` | core/src/audit.rs:86-88 | exactly the events with a stamp not below the bound are kept, in order |
| `AuditChain.AuditChain.Clear` | core/src/audit.rs:90-92 | nothing is kept |
| `AuditChain.RunStaysVerifiable` | core/src/audit.rs:59-88 | after any run of appends with non-decreasing stamps, truncations at the cap, retentions and clears the log verifies and is ordered by time |
| `AuditChain.RunRecords` | core/src/audit.rs:59-80 | in any run every stored event has the stamp and text of an append and its redacted detail |
| `AuditChain.AppendsStayVerifiable` | core/src/audit.rs:59-80 | without retentions it verifies whatever the clock does |
| `AuditChain.RetainKeepsChain` | core/src/audit.rs:86-88 | on ordered stamps retention is a cut at the front, and keeps the chain valid |
| `AuditChain.RetainKeepsChainIff` | core/src/audit.rs:86-88 | with distinct hashes, retention keeps the chain valid if and only if the kept events stand next to each other |
| `AuditChain.BackwardClockBreaksChain` | core/src/audit.rs:59-88 | three appends on a clock that runs back make a valid chain whose retention drops the middle one and no longer verifies, unless the first two hashes are the same |
| `AuditChain.TamperIsDetected` | core/src/audit.rs:153-174 | for any hash, changing any one field of any one event is detected, or the event's old and new text collide |
| `AuditChain.JointTamper` | core/src/audit.rs:153-155 | for any hash, rewriting event and detail together goes undetected if and only if their joined text is the same or the two texts collide |
| `AuditChain.JointTamperExample` | core/src/audit.rs:153-155 | such a rewriting exists |
| `Base64Url.DecodeUndoesEncode` | cloudflare-worker/src/relay-auth.js:256-274 | base64url decoding undoes encoding, for all bytes |
| `Utf8.TextRoundTrip` | cloudflare-worker/src/relay-auth.js:257-270 | text survives UTF-8 encoding and fatal decoding if and only if it does not begin with a byte-order mark |
| `Utf8.DecodeIsExact` | cloudflare-worker/src/relay-auth.js:270-270 | the fatal decoder accepts exactly the encodings of texts: nothing overlong, cut short or out of range |
| `Base64Url.DecodeRefuses` | cloudflare-worker/src/relay-auth.js:263-274 | digits are refused if and only if one is left over |
| `Base64Url.Base64UrlRoundTrip` | cloudflare-worker/src/relay-auth.js:256-274 | for every text, decoding gives it back if and only if it is not empty and does not begin with a byte-order mark |
| `CapabilityToken.TimingSafeEqual` | cloudflare-worker/src/relay-auth.js:230-238 | the accumulated difference is zero if and only if the strings are equal |
| `CapabilityToken.CheckKeys` | cloudflare-worker/src/relay-auth.js:100-104 | the loop over all keys with the timing-safe comparison is true if and only if some key signs the message so |
| `CapabilityToken.CheckV2` | cloudflare-worker/src/relay-auth.js:84-108 | the imperative check gives the verdict of the function the theorems are about |
| `CapabilityToken.CheckIdentity` | cloudflare-worker/src/relay-auth.js:50-82 | the same for both token versions, with every error case |
| `CapabilityToken.MintedTokenVerifies` | cloudflare-worker/src/relay-auth.js:50-120 | for any keyed hash whose signature of the token is 64 hex digits, the exact verdict on a minted token: not configured, expired, its own peer, class and expiry when a key in use signs its message the same way, else bad signature |
| `CapabilityToken.SignerDecides` | cloudflare-worker/src/relay-auth.js:84-120 | an unexpired token verifies under every key list that holds its key; if no other listed key gives its message the same signature, under no other list |
| `CapabilityToken.LegacyTokenVerifies` | cloudflare-worker/src/relay-auth.js:50-82 | the exact verdict on a legacy token for any keyed hash: not configured, expired if and only if 30 s past its expiry, accepted with its expiry when a key in use signs room and expiry the same way, else bad signature |
| `CapabilityToken.AcceptedV2` | cloudflare-worker/src/relay-auth.js:84-108 | a v2 verdict means: five pieces that carry its expiry, peer and class, all allowed and not expired, signed by a key in use for that room |
| `CapabilityToken.AcceptedLegacy` | cloudflare-worker/src/relay-auth.js:60-81 | a legacy verdict means: a numeral in range and not expired, signed with the room by a key in use |
| `CapabilityToken.MintRefuses` | cloudflare-worker/src/relay-auth.js:52-114 | a mint refuses exactly the peer ids and classes that are not allowed; an empty token is missing, or not configured without keys |
| `CapabilityToken.SplitIsExact` | cloudflare-worker/src/relay-auth.js:85-85 | splitting cuts at every dot and nowhere else |
| `CapabilityToken.CanonicalTexts` | cloudflare-worker/src/relay-auth.js:248-250 | the signed texts of both versions, spelled out |
| `CapabilityToken.CanonicalInjective` | cloudflare-worker/src/relay-auth.js:248-250 | over text without line breaks the signed string determines room, expiry, peer and class |
| `CapabilityToken.CanonicalsDisjoint` | cloudflare-worker/src/relay-auth.js:76-76 | no v2 signed string is a legacy one |
| `CapabilityToken.SignatureIsBound` | cloudflare-worker/src/relay-auth.js:50-108 | for any keyed hash, a token that carries a minted signature is accepted, if at all, for its room, peer, class and expiry and not as a legacy token, or a key in use gives another message that signature |

## Left out

- Reorder.SenderDecodeState.Ingest: the decoder's PCM is represented by the request made to it; libopus is not modelled.
- Crypto.CryptoSession.Decrypt: the lock around the window is not modelled; calls are sequential, and the two error texts are one error.
- PacketQueue.PacketQueue.Push: the drop counters are unbounded where the source has 64 bits, and rate-limited logging is not modelled.
- Transport.TransportManager.Send: the outcome of the WiFi send is a parameter, and error texts are one error.
- Transport.TransportManager.ArmPendingRx: the session is not the live object itself, which Rust's ownership guarantees.
- Rekey.RekeyNeverLosesInitiator: one attempt in which the responder handles one INIT, without discards, watchdog timeouts or other installs; control messages are those of the attempt.
- Crypto.CryptoSession.Encrypt: the length limit is that of the AES-GCM library, which is not part of this model; its value is taken as 2^36 bytes.
- Rekey.JniAppState.HandshakeComplete: JNI strings, base64 and the hybrid key agreement are not modelled; the session they yield, if any, is a parameter.
- Base64Url.Base64UrlRoundTrip: text is a sequence of Unicode scalar values; JavaScript strings with lone surrogates are not modelled.
- CapabilityToken.TimingSafeEqual: compares characters, which are single UTF-16 units in the hex strings it is used for.
- Denoiser.NoiseSuppressor.OneBlock: the block transform (window, FFT, Wiener gains) is a deterministic function of estimator state and block, with the attenuation setting fixed.
- AuditChain.AuditChain.Append: redaction is a parameter; which details it redacts is not modelled.
- PushLimits.PushesPerMinute: the presence list is arbitrary rows; its cache and version stamp are not modelled.
- RelayRoom.ReplaySendsPrefix: other turns may come after every frame sent, where the source yields after every 50.
- Reconstruction of the signal by overlap-add: squared Hann windows at half overlap do not sum to a constant, so nothing is claimed.
- Routing of frames to senders, the audio cache, and the interplay of replay and live writes on Android.
- Choice of the preferred transport, connect and disconnect handling.
- Fan-out to sockets, rate limits, the sweeper and trigger detection in the relay room.
- JSON export of the audit log, token issuance proofs, extraction of tokens from requests.
- Licensing, sharing, push providers, Kotlin and Swift layers, user interface.
