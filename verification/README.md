# Varta, modelled and proved

Varta is a heartbeat protocol.  An agent emits 32-byte VLP frames ("beats") over a local or
an encrypted transport; an observer decodes them and refuses replays.  This project models
the parts of Varta whose promises hold over whole runs, and proves those promises.

The modules, from the bottom up:

- `Words`, `Gf2`, `CrcTheory`, `Crc32c`, `CrcDigits`, `CrcVectors`: machine words as bit
  strings, polynomial division over GF(2), and CRC-32C (section 12.1 and appendix B.4 of
  RFC 3720).  The reference definition is long division; the table-driven loop is proved
  against it, and the generator and a published checksum are worked out digit by digit.
- `VlpFrame`: the frame codec, its two round trips, its validation gates, and what
  corruption it detects.
- `BeatMachine`, `VartaClient`: the agent's `beat` as a specification function with its
  run-level invariants, and the Rust handle as an object proved against it.
- `ForkEpoch`, `ForkLineage`: the process-wide fork epoch, and trees of forked processes
  that inherit client handles, with process ids recycled in any pattern.
- `SecureWire`, `SecureTransport`, `SecureSessions`, `NodeTransport`: the encrypted datagrams,
  the nonce allocator with its pre-connect queue and socket callbacks, where the salts of its
  sessions come from, and the Node transport object.
- `NodeStack`, `NodeBeats`, `NodeSessions`, `NodeWrap`, `NodeClient`: agent and transport
  together, what callers ask and get, how beats are spread over transport sessions, a schedule
  that reaches the wrap of the nonce, and the Node client object whose state is at every moment
  the end of the run of that stack which its calls and callbacks made.
- `PanicClaims`, `PanicFrames`: any number of threads claiming terminal timestamps and
  counters with atomic steps, in the Rust and in the Go flavour.
- `BoundedIndex`, `IpStateTable`: the observer's open-addressed index with a bounded probe
  walk, and the slab, free list and index that together behave as a bounded map.
- `LogRateLimit`, `StackFmt`: the log limiter and the fixed message buffer.
- `ReplayGuard`, `ReplayOrder`, `Reception`, `ReplayEndToEnd`, `ReplayPanics`, `WrapReplay`:
  the secure listener's replay guard under arbitrary delivery and under delivery in order, and
  its composition with the wires of the Node agent, with those of a panic hook beside it, and
  with those of an agent whose nonce has wrapped.

Each object method is proved against a specification function on values; what the source
promises is proved of that function.

Assumptions, all of them explicit in the contracts: the AEAD and HKDF (RFC 8439, RFC 5869)
are function values constrained only by `SecureWire.Lawful` (lengths, and opening undoes
sealing), and `LawfulSuiteExists` shows the constraint can be met.  Results about AEAD nonces
and prefixes assume in addition that the salts drawn in the run differ, and that key
derivation does not collide on the salts and infos it is given there; those about delivery in
order also that no prefix in use is all zeros, which the guard takes for no prefix.
Clocks, randomness, socket outcomes, process ids and hash functions are parameters, so the
results hold for every value of them.

Promises that turn out not to hold of the code everywhere:

- The fork epoch is a wrapping counter, as wide as a machine word.  `SkipsRefreshIff` and
  `SendsForeignIff` give the exact condition under which an inherited transport is used;
  `WrappedEpochIsMissed` is a run in which it is.
- The Go claim refuses a reading of 2^64-1 without being exhausted, where the Rust claim
  clamps it: `RefusalIsFinal` and `GoRefusalNotFinal`.  The function's only caller in the
  program converts a signed 64-bit duration and never passes that reading, so there every
  refusal is final: `CallersRefusalIsFinal`.
- The documentation of `StackFmt` describes its content as what was written, truncated.
  Text written after a cut can still be added: `BufferIsPrefixIff` and `LaterTextSlipsIn`.
- The log limiter takes an emission at time zero for no emission: `AllSpacedIff` is the exact
  condition on the call times, `TwoAtZero` an instance.
- The replay guard begins a sender's state anew after a silence, and then accepts again what
  it accepted before.  `AcceptedIff` is the exact condition for a datagram of any earlier
  epoch, `AcceptedAtMost` bounds the number of acceptances, and `SilenceReplays` shows that
  one silence can let in several old datagrams, of a sender that was never restarted.  The
  section on the session-restart window in book/src/architecture/vlp-transports.md speaks of
  a single beat and of a recycled process id; the code needs no recycled id and admits more.
- The guard relies on nonces rising within a prefix: `NeverTwiceIff`.  Where the beat nonce
  wraps, after 2^64-2 beats, in mid-prefix, they do not, exactly there: `AllGenuineIff`.
  `UnsafeAfterWrap` is a schedule and a delivery in which a beat is accepted twice in one epoch.

Some lemmas read one definition back, are used in the proofs, and are not listed below:
`BeatMachine.BeatCarries`, `RetryRepeats` and `RefreshBeforeSend` (what one beat may send),
and `SecureTransport.ReconnectThrows` (what a failed reconnect leaves).

## Model

| member | source | states |
|---|---|---|
| Gf2.RemainderLinear | crates/varta-vlp/src/crc32c.rs:66-75 | the remainder behind the checksum is linear over XOR |
| Gf2.BurstNonzero | crates/varta-vlp/src/crc32c.rs:66-75 | no nonzero pattern within 32 consecutive positions is a multiple of the generator |
| Gf2.RemainderParity | crates/varta-vlp/src/crc32c.rs:66-75 | for a generator with an even number of terms, division keeps the parity of the number of ones |
| CrcTheory.RegisterIsRemainder | crates/varta-vlp/src/crc32c.rs:66-75 | shifting message bits through the reflected register is long division of the augmented message |
| CrcTheory.BlockStep | crates/varta-vlp/src/crc32c.rs:66-75 | up to 32 bit steps are one table entry added to the shifted register |
| CrcTheory.CrcDifference | crates/varta-vlp/src/crc32c.rs:66-75 | checksums of equally long messages differ by the remainder of the messages' difference: the checksum is affine |
| CrcTheory.BurstDetected | crates/varta-vlp/src/crc32c.rs:66-75 | two different messages of any equal length that differ only within 32 consecutive bits have different checksums |
| CrcTheory.OddDetected | crates/varta-vlp/src/crc32c.rs:66-75 | so do two that differ in an odd number of bits |
| CrcTheory.SealedResidue | crates/varta-vlp/src/crc32c.rs:66-75 | the trailer is right exactly when dividing message and trailer together leaves all ones |
| CrcTheory.SealedBurstDetected | crates/varta-vlp/src/crc32c.rs:66-75 | corrupting up to 32 consecutive bits of a checksummed message, trailer included, always shows |
| CrcTheory.SealedOddDetected | crates/varta-vlp/src/crc32c.rs:66-75 | flipping an odd number of bits, trailer included, always shows |
| Crc32c.TableEntry | crates/varta-vlp/src/crc32c.rs:38-46 | the inner loop applies that many bit steps to a word |
| Crc32c.BuildTable | crates/varta-vlp/src/crc32c.rs:33-51 | entry n of the table is eight bit steps applied to n |
| Crc32c.Compute | crates/varta-vlp/src/crc32c.rs:66-75 | the table loop computes the polynomial-division checksum of every byte sequence |
| CrcVectors.GeneratorBits | crates/varta-vlp/src/crc32c.rs:28 | the generator's bits, lowest first, are the hexadecimal digits of 0x82F63B78 |
| CrcVectors.CheckValue | crates/varta-vlp/src/crc32c.rs:64 | the checksum of the nine digits 1 to 9 is 0xE3069283 |
| CrcDigits.CrcInDigits | crates/varta-vlp/src/crc32c.rs:66-75 | the checksum can be computed on hexadecimal digits, for every message |
| Crc32c.CastagnoliOdd | crates/varta-vlp/src/crc32c.rs:28 | the Castagnoli generator has an even number of terms, its leading one included |
| Crc32c.CorruptionDetected | crates/varta-vlp/src/crc32c.rs:66-75 | burst and odd-flip detection for CRC-32C at every message length |
| VlpFrame.TryStatus | crates/varta-vlp/src/lib.rs:107-115 | a byte is a status exactly when it is at most 3, and the status maps back to the byte |
| VlpFrame.EncodeInto | crates/varta-vlp/src/lib.rs:189-199 | the buffer ends as the encoding, whatever it held |
| VlpFrame.WireLayout | crates/varta-vlp/src/lib.rs:189-199 | every field stands at its offset, least significant byte first, the status as 0 to 3, under the checksum of the 28 bytes before it |
| VlpFrame.NewFrameHeader | crates/varta-vlp/src/lib.rs:168-178 | a new frame starts with the bytes 0x56, 0x41, 0x02 |
| VlpFrame.DecodeOfEncode | crates/varta-vlp/src/lib.rs:237-296 | decoding undoes encoding exactly for the wire-valid frames, and the others are rejected |
| VlpFrame.EncodeOfDecode | crates/varta-vlp/src/lib.rs:237-296 | an accepted buffer is wire-valid and re-encodes to the same bytes |
| VlpFrame.AcceptedIffAllGates | crates/varta-vlp/src/lib.rs:237-296 | a buffer is accepted exactly when all eight documented gates pass |
| VlpFrame.FirstFailingGate | crates/varta-vlp/src/lib.rs:237-296 | a rejected buffer reports the first gate that fails, with the value of the offending field |
| VlpFrame.CorruptionRejected | crates/varta-vlp/src/lib.rs:237-258 | a frame with a right checksum, corrupted within 32 consecutive bits or in an odd number of bits, is rejected at the checksum or before |
| VlpFrame.WindowCorruptionRejected | crates/varta-vlp/src/lib.rs:237-258 | no corruption of four consecutive bytes of an accepted frame is accepted |
| BeatMachine.AcceptExtends | crates/varta-client/src/client.rs:559-573 | committing the candidate continues the nonce and timestamp sequence of the session |
| BeatMachine.ApplyKeepsInv | crates/varta-client/src/client.rs:596-725 | every call keeps the session and counter invariant |
| BeatMachine.EveryRun | crates/varta-client/src/client.rs:596-725 | in every run: the k-th accepted frame has nonce k modulo 2^64-1, timestamps never fall; the drop count is the drops in a row, the regression count the beats whose clock fell behind the last accepted timestamp, the recovery count the fork recoveries; n times the auto-reconnects plus the current drops never exceed the dropped first attempts |
| BeatMachine.OfferedFrame | crates/varta-client/src/client.rs:602-652 | every frame a beat offers has the next nonce of its session and the time since connect or the last fork recovery, cut to 0 and 2^64-1 and never below the last accepted timestamp |
| BeatMachine.AcceptedFrame | crates/varta-client/src/client.rs:653-660 | a successful beat adds exactly that frame to its session, and a fork recovery begins a session |
| BeatMachine.OutcomeIff | crates/varta-client/src/client.rs:550-682 | what a beat reports, by the replies it meets and the drops in a row: it rebuilds the transport exactly when these reach the threshold |
| BeatMachine.NoncesDistinct | crates/varta-client/src/client.rs:559-565 | no accepted frame has the terminal nonce, and two have equal nonces exactly when a multiple of 2^64-1 frames apart |
| VartaClient.Varta.constructor | crates/varta-client/src/client.rs:400-416 | a new handle is a session with nothing accepted |
| VartaClient.Varta.CommitSentFrame | crates/varta-client/src/client.rs:567-573 | nonce and timestamp become the frame's, nothing else changes |
| VartaClient.Varta.Settle | crates/varta-client/src/client.rs:653-682 | send, commit, count drops, reconnect and retry as the machine specifies, with the same datagrams |
| VartaClient.Varta.Refresh | crates/varta-client/src/client.rs:616-625 | a refreshed session starts over under the current process id and epoch |
| VartaClient.Varta.Prepare | crates/varta-client/src/client.rs:629-652 | the scratch buffer ends as the encoded candidate frame |
| VartaClient.Varta.Beat | crates/varta-client/src/client.rs:596-682 | state, outcome and datagrams of the in-place beat are those of the machine |
| VartaClient.Varta.Reconnect | crates/varta-client/src/client.rs:700-706 | an explicit reconnect updates both snapshots only on success |
| VartaClient.Varta.SetReconnectAfter | crates/varta-client/src/client.rs:722-725 | sets the threshold and restarts the drop count |
| ForkEpoch.Statics.AdvanceChildEpoch | crates/varta-client/src/fork_epoch.rs:25-30 | the epoch advances by one, wrapping at the width of a machine word |
| ForkEpoch.Statics.Register | crates/varta-client/src/fork_epoch.rs:38-54 | the callback is installed at most once and its first result is reported ever after |
| ForkEpoch.FirstReplyStands | crates/varta-client/src/fork_epoch.rs:38-54 | of any number of registrations the first reply stands |
| ForkEpoch.AdvanceCounts | crates/varta-client/src/fork_epoch.rs:21-23 | the epoch is the number of advances modulo the width, for 32-bit and 64-bit words |
| ForkEpoch.SameEpochIff | crates/varta-client/src/fork_epoch.rs:58-60 | two advance counts show the same epoch exactly when a multiple of the width apart |
| ForkLineage.SkipsRefreshIff | crates/varta-client/src/client.rs:602-604 | exactly when a beat skips the refresh: same process id, and a multiple of the counter's width of forks since the transport was connected |
| ForkLineage.InheritedIsRefreshed | crates/varta-client/src/client.rs:602-628 | with fewer nested forks than the counter has values an inherited transport is always refreshed before use |
| ForkLineage.SendsForeignIff | crates/varta-client/src/client.rs:602-682 | exactly when a beat sends through another instance's transport: an equal process id and a positive multiple of the counter's width of forks |
| ForkLineage.AfterKeepsInv | crates/varta-client/src/client.rs:596-706 | forks, exits, connects, beats and reconnects keep the dating of transports by epochs |
| ForkLineage.EveryFrameOnOwnTransport | crates/varta-client/src/client.rs:602-628 | in every tree of processes, of any size, every frame goes through a transport connected in its own instance unless at least the counter's width of nested forks lies between; so an instance less deep than that uses only its own |
| ForkLineage.WrappedEpochIsMissed | crates/varta-client/src/fork_epoch.rs:21-23 | a chain of that many forks, each parent exiting and two process ids alternating, in which a frame does go through an inherited transport |
| SecureWire.SharedRoundTrip | clients/node/src/vlp_secure.ts:148-181 | a shared-key datagram is 60 bytes: prefix, counter, and the text sealed under the key and those twelve bytes; it opens to what was sealed |
| SecureWire.MasterRoundTrip | clients/node/src/vlp_secure.ts:185-226 | a master-key datagram is 64 bytes: the agent, prefix, counter, and the text sealed under the key derived for that agent, bound to its name; it opens to what was sealed |
| SecureWire.NonceInjective | clients/node/src/vlp_secure.ts:101-106 | prefix and counter can be read back from the nonce |
| SecureWire.InfosDiffer | clients/node/src/vlp_secure.ts:48-69 | different agents and different prefix indices give key derivation different inputs, never one of the other kind |
| SecureWire.PublishedInfos | tools/vlp-test-vectors.json:211-227 | the published derivation inputs of agent 42 and of prefix 7 |
| SecureTransport.ReserveTakesNextSlot | clients/node/src/transport.ts:419-443 | the 32-bit arithmetic never wraps: a reservation is the next slot of the session |
| SecureTransport.HandKeepsNonces | clients/node/src/transport.ts:459-495 | accepting a datagram keeps the account of nonce slots |
| SecureTransport.HandKeepsQueue | clients/node/src/transport.ts:451-495 | accepting a datagram keeps queue and transmitted datagrams equal to what was accepted |
| SecureTransport.EveryRun | clients/node/src/transport.ts:368-517 | in every run: accepted = transmitted followed by the queue; the current session has accepted prefixIndex*(2^32-1)+counter frames; a connected transport has no queue; the queue holds at most 64 |
| SecureTransport.SlotsDistinct | clients/node/src/transport.ts:419-449 | no two accepted datagrams share session, prefix index and counter |
| SecureTransport.SlotsRise | clients/node/src/transport.ts:419-449 | within a session later datagrams use later slots |
| SecureTransport.RotatesWhenFull | clients/node/src/transport.ts:419-426 | a session is replaced exactly when it holds 2^32*(2^32-1) frames |
| SecureTransport.SessionCapacity | clients/node/src/transport.ts:419-426 | no session ever holds more |
| SecureTransport.ThrowChangesNothing | clients/node/src/transport.ts:451-495 | a send that throws leaves session, queue and counters as they were |
| SecureTransport.ThrowsIff | clients/node/src/transport.ts:451-495 | exactly when a send throws and what: a waiting error, a buffer that is not one frame, a full queue, a full session that cannot be replaced, or the socket's error, in that order |
| SecureTransport.RetiredForever | clients/node/src/transport.ts:368-399 | callbacks of a replaced socket never again change anything |
| SecureTransport.ReconnectRetires | clients/node/src/transport.ts:368-399 | a reconnect retires the socket it replaces: its callbacks never again change anything |
| SecureTransport.EntryOpens | clients/node/src/transport.ts:459-495 | every accepted datagram opens to what was sealed into it |
| SecureSessions.SaltsAreDrawn | clients/node/src/transport.ts:497-517 | in every run session 0 uses the salt it was opened with and session n the salt drawn by the n-th call that replaced the session, and every accepted datagram is sealed under the prefix derived from its session's salt |
| SecureSessions.NoncesDistinct | clients/node/src/transport.ts:419-449 | in every run whose drawn salts differ and on whose inputs key derivation does not collide, no two datagrams carry the same AEAD nonce |
| SecureSessions.ErrorIsThrown | clients/node/src/transport.ts:371-375 | a send throws the last error its socket reported, and only once |
| NodeTransport.SecureUdpTransport.constructor | clients/node/src/transport.ts:327-349 | a new transport has an unconnected socket, an empty queue and slot zero |
| NodeTransport.SecureUdpTransport.Connect | clients/node/src/transport.ts:351-366 | the factories fail exactly for keys that are not 32 bytes or when opening the socket throws |
| NodeTransport.SecureUdpTransport.Reconnect | clients/node/src/transport.ts:497-517 | new socket and session replace the old ones only if nothing threw; the queue stays |
| NodeTransport.SecureUdpTransport.PrepareNonce | clients/node/src/transport.ts:419-443 | rotates only when exhausted; the reservation is that of the state it leaves |
| NodeTransport.SecureUdpTransport.CommitNonce | clients/node/src/transport.ts:445-449 | the reserved slot becomes the state |
| NodeTransport.SecureUdpTransport.Send | clients/node/src/transport.ts:451-495 | state, fault and transmitted datagram of the in-place send are those of the machine |
| NodeTransport.SecureUdpTransport.OnConnect | clients/node/src/transport.ts:378-390 | the drain loop transmits the whole queue in order, for the current socket only |
| NodeTransport.SecureUdpTransport.OnError | clients/node/src/transport.ts:371-375 | an error is kept for the next send, for the current socket only |
| NodeStack.TalkMatches | clients/node/src/client.ts:165-251 | first attempt and retry together get a beat accepted at most once |
| NodeStack.SentIffDelivered | clients/node/src/client.ts:165-251 | a beat reports success exactly when the transport accepted its buffer |
| NodeStack.ApplyKeepsInv | clients/node/src/client.ts:165-285 | beats, reconnects, closes and socket callbacks keep agent and transport in step |
| NodeStack.EndToEnd | clients/node/src/client.ts:165-296 | for every schedule: opening and decoding the transmitted and queued datagrams gives the successful beats in order, except those with a reserved process id or saturated clock |
| NodeBeats.AsksArrive | clients/node/src/client.ts:165-296 | for every schedule, what a receiver reads from the wires is the status, payload and process id the successful calls asked for, in call order |
| NodeBeats.BeatSentIff | clients/node/src/client.ts:165-251 | exactly when a beat succeeds: the client is open, the status may be sent, and by the faults met, the drops in a row, the rebuild threshold and the room in the queue |
| NodeBeats.BeatFrame | clients/node/src/client.ts:197-220 | the frame a successful beat adds has the next nonce of its session and the time since the session began, never below the last accepted |
| NodeBeats.ClosedForever | clients/node/src/client.ts:280-285 | a closed client stays closed and adds no beat and no datagram, whatever it is asked |
| NodeBeats.ReconnectOpens | clients/node/src/client.ts:253-261 | a reconnect that works opens a session under the salt it met and makes the calling process the transport's; one that fails, or of a closed client, does not; queue and agent session stay |
| NodeBeats.DropLimit | clients/node/src/client.ts:224-227 | in every schedule the drop count saturates at 2^53-1 |
| NodeBeats.ThresholdSets | clients/node/src/client.ts:263-266 | setting the threshold restarts the drop count and leaves the rest alone |
| NodeSessions.ApplyKeepsFlow | clients/node/src/client.ts:165-285 | every call and callback keeps: successive beats of one transport session have successive nonces and one process id |
| NodeSessions.SessionNoncesRise | clients/node/src/client.ts:176-204 | beats of one transport session have rising nonces until the nonce wraps, because whatever restarts the nonces replaces the session |
| NodeWrap.WrapRun | clients/node/src/client.ts:197-204 | a schedule whose beat nonce wraps between two beats of one prefix, for every suite, key and randomness |
| NodeClient.Varta.constructor | clients/node/src/client.ts:116-128 | a new client over a new transport begins a run of the stack |
| NodeClient.Varta.SendFrame | clients/node/src/client.ts:289-296 | one send of the buffer, classified |
| NodeClient.Varta.CommitSentFrame | clients/node/src/client.ts:301-309 | nonce and timestamp become the frame's |
| NodeClient.Varta.Refresh | clients/node/src/client.ts:177-189 | a failed refresh leaves the client as it was, a successful one restarts the session |
| NodeClient.Varta.Prepare | clients/node/src/client.ts:191-215 | the scratch buffer ends as the encoded candidate frame |
| NodeClient.Varta.Settle | clients/node/src/client.ts:217-251 | send, commit, count drops, reconnect and retry, on the real transport object |
| NodeClient.Varta.Beat | clients/node/src/client.ts:165-251 | client and transport objects stay at the end of the run their calls and callbacks made, and success is reported exactly when a beat was added to it |
| NodeClient.Varta.Reconnect | clients/node/src/client.ts:253-261 | refused when closed; otherwise snapshots change only if the transport reconnects |
| NodeClient.Varta.SetReconnectAfter | clients/node/src/client.ts:263-266 | sets the threshold, cut to a whole number and at least zero, and restarts the drop count |
| NodeClient.Whole | clients/node/src/client.ts:263-266 | a threshold is kept exactly if at least one, rounded down |
| NodeClient.Varta.Close | clients/node/src/client.ts:280-285 | closes once |
| NodeClient.Varta.EndToEnd | clients/node/src/client.ts:165-296 | at any moment of the object's life, what it transmitted and what its transport holds queued opens and decodes to its successful beats in order |
| PanicClaims.AfterKeepsInv | crates/varta-client/src/panic.rs:26-44 | each atomic step of any thread keeps the claim invariant |
| PanicClaims.EveryInterleaving | crates/varta-client/src/panic.rs:26-44 | over all interleavings the grants equal a sequential execution in swap order: strictly rising, within 1..2^64-2, at least the claim's clamped reading |
| PanicClaims.AttemptGrants | crates/varta-client/src/panic.rs:26-44 | each grant is the larger of the mark plus one and the reading the thread started with, which the Rust claim cuts to 2^64-2, by the list of steps alone |
| PanicClaims.LockFree | clients/go/panic/signal.go:60-77 | a claim loses at most one swap per grant to another thread, and its next swap succeeds exactly if nobody was granted since its load |
| PanicClaims.GrantsConsume | clients/go/panic/signal.go:60-77 | every grant uses up part of the finite range of timestamps |
| PanicClaims.RefusalIsFinal | crates/varta-client/src/panic.rs:26-44 | no grant follows a refusal, except one of a Go claim with reading 2^64-1 below the limit |
| PanicClaims.CallersRefusalIsFinal | clients/go/panic/signal.go:79-86 | with the readings the program's callers can pass, every refusal is final in both flavours |
| PanicClaims.BelowLimitGrants | crates/varta-client/src/panic.rs:26-44 | below the limit a further grant is always possible, so only refusals at the limit are final |
| PanicClaims.GoRefusalNotFinal | clients/go/panic/signal.go:60-77 | the exception occurs: such a Go claim is refused and the next one is granted |
| PanicFrames.FetchKeepsNumbers | crates/varta-client/src/panic.rs:280-283 | the counter numbers the fetches until it wraps |
| PanicFrames.FramesDistinct | crates/varta-client/src/panic.rs:345-374 | in every interleaving panic frames have timestamps within 1..2^64-2, no two the same, and no two the same counter before the counter has come full circle |
| PanicFrames.FetchesBuild | crates/varta-client/src/panic.rs:280-283 | in every interleaving, until the counter wraps, the first 2^32 fetches each make a frame with the fetched grant's timestamp and the fetch's number, and later ones make none |
| PanicFrames.PanicFrameArrives | crates/varta-client/src/panic.rs:248-276 | the built datagram carries the prefix derived from its inputs and its counter, and opens and decodes to the terminal frame, exactly for process ids that are not reserved |
| PanicFrames.PanicInfoLayout | crates/varta-vlp/src/crypto/kdf.rs:125-144 | the derivation input is the label followed by process id, timestamp and counter, least significant byte first |
| PanicFrames.PanicInfoInjective | crates/varta-vlp/src/crypto/kdf.rs:125-144 | different process ids, timestamps or counters give key derivation different inputs |
| BoundedIndex.AbsentWhenPassed | crates/varta-watch/src/probe_table.rs:114-134 | stopping at an empty slot or at the end of the budget proves the key absent |
| BoundedIndex.ProbeAt | crates/varta-watch/src/probe_table.rs:114-134 | the e-th probe looks at the hash plus e, modulo the table size |
| BoundedIndex.NextPowerLeast | crates/varta-watch/src/probe_table.rs:93-95 | the table size is the least power of two that is large enough |
| BoundedIndex.ReachesKept | crates/varta-watch/src/probe_table.rs:140-245 | as long as no slot becomes empty again, a reachable key stays reachable |
| BoundedIndex.PutKeeps | crates/varta-watch/src/probe_table.rs:152-168 | filling the chosen vacancy keeps every key findable |
| BoundedIndex.RemoveKeeps | crates/varta-watch/src/probe_table.rs:219-245 | a tombstone keeps the other keys findable |
| BoundedIndex.CrowdedNeedsKeys | crates/varta-watch/src/probe_table.rs:140-214 | a refusal needs as many stored keys as the probe window has positions |
| BoundedIndex.Index.constructor | crates/varta-watch/src/probe_table.rs:93-103 | an empty table of the next power of two above twice the capacity |
| BoundedIndex.Index.Get | crates/varta-watch/src/probe_table.rs:114-134 | the index is a partial map: a stored key is always found, an absent one never |
| BoundedIndex.Index.Seek | crates/varta-watch/src/probe_table.rs:140-214 | the insertion walk finds the key, or the first vacancy it meets, or fails exactly when its window is all other live keys |
| BoundedIndex.Index.Insert | crates/varta-watch/src/probe_table.rs:140-214 | insert or update as a map; refused exactly for a new key with a crowded window, changing only the counter |
| BoundedIndex.Index.Remove | crates/varta-watch/src/probe_table.rs:219-245 | removes exactly the key and returns its slot |
| IpStateTable.TakeFree | crates/varta-watch/src/ip_state_table.rs:91-113 | taking a free slot keeps slab, free list and index standing for the map |
| IpStateTable.GiveBack | crates/varta-watch/src/ip_state_table.rs:115-124 | returning a slot does too |
| IpStateTable.Table.constructor | crates/varta-watch/src/ip_state_table.rs:50-67 | an empty table whose free list holds every slot |
| IpStateTable.Table.Len | crates/varta-watch/src/ip_state_table.rs:69-71 | the number of stored addresses |
| IpStateTable.Table.GetMut | crates/varta-watch/src/ip_state_table.rs:84-87 | the stored state, or none exactly for an unknown address |
| IpStateTable.Table.WriteThrough | crates/varta-watch/src/ip_state_table.rs:84-87 | writing through the reference changes that address's state and nothing else |
| IpStateTable.Table.Insert | crates/varta-watch/src/ip_state_table.rs:91-113 | a bounded map: replace in place, refuse exactly when new and full or crowded, refusals leave slab and free list alone; up to 64 entries only when full |
| IpStateTable.Table.Remove | crates/varta-watch/src/ip_state_table.rs:115-124 | forgets exactly the address |
| IpStateTable.Table.Scan | crates/varta-watch/src/ip_state_table.rs:139-145 | collects exactly the addresses not seen within the time-to-live, at most one per slot |
| IpStateTable.Table.EvictOlderThan | crates/varta-watch/src/ip_state_table.rs:139-152 | keeps exactly the entries seen within the time-to-live, with their states |
| IpStateTable.Table.OldestIp | crates/varta-watch/src/ip_state_table.rs:157-168 | an address of least last-seen, or none exactly when the table is empty |
| LogRateLimit.EmitsIff | crates/varta-watch/src/log_ratelimit.rs:104-116 | a call emits exactly when every earlier emission, but for those at time zero, lies a second back |
| LogRateLimit.Spacing | crates/varta-watch/src/log_ratelimit.rs:104-116 | for arbitrary clocks, after an emission at a nonzero time every later one is at least a second later |
| LogRateLimit.AllSpacedIff | crates/varta-watch/src/log_ratelimit.rs:104-116 | exactly when all emissions of a run are a second apart, by the call times: the first call is not at time zero or the second is a second later |
| LogRateLimit.TwoAtZero | crates/varta-watch/src/log_ratelimit.rs:104-116 | two calls at time zero both emit |
| LogRateLimit.Accounting | crates/varta-watch/src/log_ratelimit.rs:104-116 | calls are emissions plus suppressions; the total saturates; until then every suppression is reported once or still queued |
| LogRateLimit.KindsIndependent | crates/varta-watch/src/log_ratelimit.rs:104-116 | under any interleaving each kind's bucket is what its own calls make it |
| LogRateLimit.LogRateLimiter.ShouldEmit | crates/varta-watch/src/log_ratelimit.rs:104-116 | changes one bucket, as specified, and reports its queued drops |
| LogRateLimit.LogRateLimiter.SnapshotTotals | crates/varta-watch/src/log_ratelimit.rs:120-126 | the cumulative totals by kind |
| StackFmt.FitLongest | crates/varta-watch/src/log.rs:196-219 | what a write keeps is the longest code-point-aligned prefix that fits |
| StackFmt.CutPoint | crates/varta-watch/src/log.rs:196-219 | backing off over continuation bytes stops exactly behind that prefix |
| StackFmt.Utf8Injective | crates/varta-watch/src/log.rs:185-193 | the bytes of the buffer spell one text only |
| StackFmt.PublishedExamples | crates/varta-watch/src/log.rs:185-193 | two examples of section 7 of RFC 3629 |
| StackFmt.Buffer.WriteStr | crates/varta-watch/src/log.rs:196-219 | the buffer stays valid UTF-8 and gains that prefix; a truncated write leaves at most three bytes unused |
| StackFmt.Buffer.AsStr | crates/varta-watch/src/log.rs:185-193 | the view is the UTF-8 form of the text |
| StackFmt.BufferIsPrefixIff | crates/varta-watch/src/log.rs:153-157 | after any writes the buffer is a beginning of all that was written exactly when nothing was added after a cut, and then it was cut before a scalar too wide to fit |
| StackFmt.LaterTextSlipsIn | crates/varta-watch/src/log.rs:196-219 | it need not be: text written after a cut can still be added |
| ReplayGuard.AcceptKeepsInv | crates/varta-watch/src/secure_listener/mod.rs:547-664 | an accepted datagram is new to its epoch, and the recorded marks are exactly the largest accepted in it |
| ReplayGuard.ApplyKeepsDated | crates/varta-watch/src/secure_listener/mod.rs:547-664 | in every run a known sender's last-seen time is when its last datagram was accepted, and its remembered prefixes are the last two of its epoch, by what was accepted |
| ReplayGuard.NoReplay | crates/varta-watch/src/secure_listener/mod.rs:547-664 | whatever the network reorders, drops or repeats, a genuine datagram is accepted again only in a later epoch, that is after the sender's state was begun anew |
| ReplayGuard.AcceptedIff | crates/varta-watch/src/secure_listener/mod.rs:547-664 | the verdict on every datagram, by what was accepted and when: unknown senders by room, remembered prefixes by their counters, others by nonce or timestamp, and regular ones anew after a silence since the last acceptance |
| ReplayGuard.RepeatAcceptedIff | crates/varta-watch/src/secure_listener/mod.rs:595-635 | exactly when a datagram already accepted in this epoch is accepted again: regular, of a prefix no longer remembered, after a silence since the last acceptance |
| ReplayGuard.AcceptedAtMost | crates/varta-watch/src/secure_listener/mod.rs:547-664 | a genuine datagram is accepted at most once more than the sender was evicted or something arrived after a silence since the last acceptance |
| ReplayGuard.EvictedIsUnknown | crates/varta-watch/src/secure_listener/mod.rs:547-664 | after an eviction the next datagram begins an epoch, whatever was accepted before, if there is room |
| ReplayGuard.SilenceReplays | book/src/architecture/vlp-transports.md:306-332 | after one silence any three datagrams of three prefixes are all accepted a second time |
| ReplayGuard.WrapReplays | crates/varta-watch/src/secure_listener/mod.rs:547-664 | where nonces fall within a prefix a datagram can be accepted twice in one epoch |
| ReplayGuard.NeverTwiceIff | crates/varta-watch/src/secure_listener/mod.rs:547-664 | given the sender's other labels and prefixes enough to make the guard forget, rising nonces within prefixes are exactly what keeps it from accepting a datagram twice in one epoch under any delivery |
| ReplayOrder.LossKeepsLayout | crates/varta-watch/src/secure_listener/mod.rs:547-664 | what losses leave of a stream in order is in order |
| ReplayOrder.InOrderAcceptedIff | crates/varta-watch/src/secure_listener/mod.rs:547-664 | exactly when a stream in order, arriving at any times, is accepted in full and in one epoch: every change of prefix comes with a nonce above all before it |
| ReplayOrder.LossyAccepted | crates/varta-watch/src/secure_listener/mod.rs:547-664 | a stream with rising nonces is accepted in full, whatever was lost of it and whenever the rest arrives |
| ReplayEndToEnd.ParsesBack | crates/varta-watch/src/secure_listener/mod.rs:787-908 | the listener reads prefix, counter, process id, nonce and timestamp of every wire as the agent meant them, and rejects exactly those with a reserved process id or saturated clock |
| ReplayEndToEnd.ParseShared | crates/varta-watch/src/secure_listener/mod.rs:787-818 | what the listener reads of a 60-byte wire under a shared key, byte by byte |
| ReplayEndToEnd.ParseMaster | crates/varta-watch/src/secure_listener/mod.rs:469-493 | what it reads of a 64-byte wire under a master key: the agent named in front is the one whose key opens it and whose frame is inside |
| ReplayEndToEnd.AllGenuineIff | clients/node/src/transport.ts:419-495 | all datagrams a stack ever sends, over all its sessions, are a genuine sender's exactly if the beat nonce nowhere wraps in mid-prefix |
| ReplayEndToEnd.AllLaidOut | clients/node/src/transport.ts:419-495 | they are always laid out in order: counters rise within a prefix and a prefix once left is not used again |
| ReplayEndToEnd.ReplaySafe | crates/varta-watch/src/secure_listener/mod.rs:787-945 | for every schedule of the agent whose drawn salts differ, and every delivery of its wires: the guard accepts nothing twice in one epoch, nor more often than once plus evictions and silences |
| ReplayEndToEnd.OnTimeIff | crates/varta-watch/src/secure_listener/mod.rs:787-945 | for every schedule, whichever wires get through in order and at any times: all readable ones are accepted in one epoch exactly if changes of prefix come with leading nonces, as in the agent's last session they do |
| ReplayPanics.ShotParses | crates/varta-watch/src/secure_listener/mod.rs:787-908 | the listener reads a panic frame's prefix, counter, process id and timestamp, exactly unless its process id is reserved |
| ReplayPanics.ReplaySafeWithPanics | crates/varta-watch/src/secure_listener/mod.rs:787-945 | the same safety for an agent together with a panic hook under one key: every schedule, every interleaving of claims, every delivery of both their wires |
| WrapReplay.UnsafeAfterWrap | crates/varta-watch/src/secure_listener/mod.rs:787-945 | a schedule of 2^64+1 beats and a delivery of its wires after which a beat has been accepted twice in one epoch |

## Left out

- ForkLineage.InheritedIsRefreshed: for processes with fewer nested forks than the epoch counter has values; `SkipsRefreshIff` is the form without that bound.
- PanicClaims.EveryInterleaving: atomic operations are steps of one sequentially consistent memory; weaker memory orderings are not modelled, and the retry loop of a claim is its sequence of steps rather than a loop in a method.
- PanicFrames.FramesDistinct: covers one installation; forked copies of an installation are separated only by the inputs of key derivation, which `PanicInfoInjective` keeps apart.
- ReplayGuard.NoReplay: speaks of one sender identity; the slab and index that hold the senders' states are the structures of `IpStateTable` and are not repeated, and running out of slots is the parameter `room`.
- ReplayEndToEnd.ReplaySafe: assumes that the beat nonce does not wrap in mid-prefix, that the drawn salts differ and that key derivation does not collide; `UnsafeAfterWrap` shows why the first is needed.  AEAD forgery is not modelled, so wires that neither the stack nor, in `ReplaySafeWithPanics`, its panic hook sent must not parse.
- ReplayEndToEnd.ParsesBack: the model's listener has one key of one kind; the source tries every loaded key, and both kinds on a 64-byte wire.
- ReplayGuard.NeverTwiceIff: asks for two further prefixes between falling nonces; for sets without them the exact condition is not given.
- WrapReplay.UnsafeAfterWrap: conditional on the schedule's drawn salts differing, key derivation not colliding and no prefix being all zeros; that some suite and randomness meet this is not proved.
- IpStateTable.Table.GetMut: returns the state by value; a write through the reference is the separate `WriteThrough`.
- IpStateTable.Table.constructor: capacities below 2^32-2, which the slot sentinels of the index demand.
- NodeClient.Varta.SetReconnectAfter: an infinite threshold, which the source would keep as infinite.
- BoundedIndex.Index.Seek: the probe walks of lookup and removal are one method, `Find`; masking with a power of two less one is written as wrapping at the end of the table, and the hash is any function.
- NodeClient.Varta.Close: closing the socket itself; later callbacks are still allowed to happen.
- SecureTransport.EveryRun: a datagram flushed in the connect callback counts as transmitted; a failure there is reported only through the error callback.
- A beat is atomic with respect to fork and to socket callbacks.
- The plain UDP and Unix-socket transports, which have the same queue without nonces, and the Rust secure transport.
- The Go, Python and other clients, which repeat the beat machine without the fork epoch.
- Sockets, file descriptors, platform calls, errno classification, and the text of errors and log lines.
- The internals of ChaCha20-Poly1305, SHA-256 and HKDF.
- The observer's tracker, recovery, exporter and configuration.
