# gptl: verified models of the transport and routing core

Dafny models of the parts of gptl that carry its guarantees, with the proofs of those guarantees.

- **Onion transport.** `Cells` (fixed-size cells and relay plaintexts), `CellCrypto` (counter-nonce ciphers against a
  hostile network), `Streams` (chunking, multiplexing, stream identifiers), `Circuit` (the client's one- or two-hop
  circuit), `Onion` and `OnionReturn` (client, first relay, exit and network as one state machine, outbound and
  inbound).
- **Key ratchet.** `Ratchet`: two parties, symbolic key derivation, unbounded runs.
- **Sybil graph.** `SybilGraph`: similarity graph, depth-first search, density, reported groups.
- **Resources and windows.** `ResourceGuard` (memory accounting under interleaved lock sections), `Deadlock` (when
  these sections block each other), `Windows` (pruned histories against full ones).
- **Relays and circuits.** `CircuitPool` (leases), `RelaySelector` and `Selection` (the selector, and when it
  succeeds, panics, weights exactly and keeps its criteria), `Failover`, `FailoverRuns` and `FailoverSettings`
  (failover, its event log, and the settings it depends on), `Guards` (rotation, entry relays and failure counts).
- **Wire formats.** `Bootstrap` (signed directories), `Rtr` (RFC 8210), `Dns` (RFC 1035). `Bytes` holds the integer
  encodings they share.

Objects that the original updates in place are classes. Each method is proved equal to a function of the old state,
and the theorems are about these functions: invariants over every run, round trips, refinements and exact conditions.
Time and random draws are inputs. The bandwidth sum and the failure counts wrap as in a release build. The cipher is
ideal, no forged ciphertext or signature is presented, and the key derivation is free.

Where the code does less than its comments or its natural reading promise, the exact condition is proved:

- The comment on DH steps asks the parties to alternate; what keeps them in step is exactly that no step is sent
  against one in flight (`Ratchet.AllowedIsExact`).
- An out-of-memory tick kills every queued circuit, so the order by difficulty decides nothing
  (`ResourceGuard.KillAllConserves`); a random circuit id that is in use loses memory for good, and nothing else does
  (`ResourceGuard.ConservedIffFresh`).
- The tick and a release take two locks in opposite orders. They deadlock, for ever, exactly in the state of
  `Deadlock.NothingGoesOnIff`, and a run gets there exactly if circuits can put the pool under pressure at all
  (`Deadlock.DeadlockReachableIff`).
- The density of a group can exceed one exactly when an identity is listed twice and there is another one
  (`SybilGraph.DensityAtMostOneIff`).
- Length fields are cut to 32 bits before signing; messages determine their list exactly below the shortest collision,
  a little over 4 GiB (`Bootstrap.InjectiveBelowIff`). One key in two spellings is not a duplicate
  (`Bootstrap.SpellingsHideDuplicate`); a validated list names each key once exactly when no two of its key strings
  differ in letter case alone (`Bootstrap.KeysDistinctIff`).
- A query is malformed exactly when a label is empty or the domain has more than 253 bytes (`Dns.QueryWellFormedIff`).
- A circuit built on demand has its age counted from its first return. A circuit can be handed out over its true age
  exactly when the pool counts from after its birth and it is still usable (`CircuitPool.OverAgeIff`); this can happen
  under all limits that let a circuit come back (`CircuitPool.OverAgePossibleIff`). Leases are kept by a random id and
  are kept apart exactly under two ids (`CircuitPool.LeasesKeptIffDistinctIds`).
- A selection panics without configured retries on a relay that has failed, and under hybrid or geographic scoring on
  scores that are no number, as when all candidates report no bandwidth (`Selection.SelectionSucceedsIff`,
  `Selection.HybridPanicsOnIdleRelays`; which settings exclude it: `Selection.ManyNeverPanicsIff`). A panic cuts off
  the report of a failure behind its announcement (`FailoverRuns.IdleRelaysCutReportOff`). Every announced failure of
  every run ends exactly if retries are configured, the strategy is not hybrid, and it is not geographic with a known
  client location (`FailoverSettings.ReportsAlwaysEndIff`); for circuits with a backup see
  `FailoverSettings.BackupsNeverCutOffIff`.
- Weighting is exact only while the bandwidth sum fits 64 bits (`Selection.ExactWeightingIffSumFits`, which takes the
  wrapping sum of a release build). Selecting several relays overwrites the default exclusion lists; when the results
  still meet the criteria is `Selection.DefaultExclusionsKeptIff`.
- The refill of the backup pool builds criteria that exclude the failed relays and does not use them. It never adds a
  failed relay exactly if it adds nothing at all or no retries are configured (`FailoverSettings.NeverAddsFailedIff`,
  over runs `FailoverSettings.NoRunAddsFailedIff`).
- Guards are reported by nickname, which a renamed relay can share; the counts stay right exactly when no guard of the
  nickname misses a report (`Guards.CountsAlwaysRightIff`, `Guards.RenamedGuardTakesReports`).
- A stream stays registered when sending its Begin cell fails (`Circuit.Circuit.OpenStream`), and a failed send leaves
  the inner counter advanced exactly when just the outer one is spent (`Circuit.SendSucceedsIff`).

## Model

| member | source | states |
|---|---|---|
| Cells.ToBytes | rust/gptl-transport/src/cell.rs:117-123 | a cell is written as exactly the 512 bytes of `CellBytes` |
| Cells.FromBytes | rust/gptl-transport/src/cell.rs:126-138 | any 512 bytes parse as `ParseCell` says, unknown cell types being an error |
| Cells.CellRoundTrip | rust/gptl-transport/src/cell.rs:117-138 | what is written is read back |
| Cells.CellCanonical | rust/gptl-transport/src/cell.rs:117-138 | parsing accepts exactly the images of writing: a buffer that parses to a cell is that cell's encoding |
| Cells.CellLayout | rust/gptl-transport/src/cell.rs:117-138 | where circuit id, type code and payload stand in the 512 bytes, and the code of each type |
| Cells.Encode | rust/gptl-transport/src/cell.rs:235-249 | the 491-byte relay plaintext, or an error exactly when the data is too long |
| Cells.EncodeInner | rust/gptl-transport/src/cell.rs:276-290 | the 470-byte inner plaintext, or an error exactly when the data is too long |
| Cells.RelayRoundTrip | rust/gptl-transport/src/cell.rs:235-310 | decoding undoes encoding at both sizes; zero padding never leaks into the data |
| Cells.RelayCanonical | rust/gptl-transport/src/cell.rs:252-273 | a plaintext is an encoding if and only if it decodes and everything behind its data is zero |
| Cells.RelayLayout | rust/gptl-transport/src/cell.rs:235-273 | where command, stream id, length and data stand, the code of each command, which plaintexts decode, and the error of the others |
| CellCrypto.NonceInjective | rust/gptl-transport/src/crypto.rs:120-124 | different counters give different nonces |
| CellCrypto.NonceLayout | rust/gptl-transport/src/crypto.rs:120-124 | the nonce is the counter in eight bytes, the most significant first, and four zeros |
| CellCrypto.CellCipher.Encrypt | rust/gptl-transport/src/crypto.rs:34-48 | outer seal at the present counter; the counter moves exactly on success |
| CellCrypto.CellCipher.Decrypt | rust/gptl-transport/src/crypto.rs:50-75 | outer open at the present counter; a forged or displaced payload leaves the counter where it is |
| CellCrypto.CellCipher.EncryptInner | rust/gptl-transport/src/crypto.rs:77-91 | inner seal on the same counter |
| CellCrypto.CellCipher.DecryptInner | rust/gptl-transport/src/crypto.rs:93-112 | inner open on the same counter |
| CellCrypto.CellCipher.Advance | rust/gptl-transport/src/crypto.rs:127-134 | the counter steps by one, and refuses at 2^64-1 |
| CellCrypto.AcceptsExactlyTheNext | rust/gptl-transport/src/crypto.rs:34-112 | an opening cipher accepts the next genuine ciphertext and nothing else, whatever the network did before |
| CellCrypto.AcceptedIsPrefixOfSealed | rust/gptl-transport/src/crypto.rs:34-140 | over any run against a network that drops, reorders, replays and injects: accepted plaintexts are a prefix of the sealed ones, counters count them, no two seals (outer or inner) share a nonce |
| CellCrypto.ExhaustedForever | rust/gptl-transport/src/crypto.rs:127-140 | once the counter is exhausted no later seal ever succeeds |
| CellCrypto.ToyAeadIsIdeal | rust/gptl-transport/src/crypto.rs:17-60 | the ideal-cipher assumption can be met on real byte strings |
| Streams.OutboundQueue.Write | rust/gptl-transport/src/circuit.rs:49-68 | behind what is queued come the cells of the write, in order; it fails if and only if the circuit goes away first, and then as many of these cells are queued as went in before |
| Streams.ChunksCarry | rust/gptl-transport/src/circuit.rs:49-68 | the cells of a write are Data cells of at most 465 bytes, as few as fit, that carry exactly the written bytes on their stream and nothing on any other |
| Streams.TakenOfWrite | rust/gptl-transport/src/circuit.rs:49-68 | a circuit that takes n more cells takes all of a write if and only if it has at most 465n bytes, and else exactly its first 465n bytes |
| Streams.InboundQueue.ReadData | rust/gptl-transport/src/circuit.rs:71-79 | skips Connected and Failed, returns the next data, and ends at End or a closed drained queue |
| Streams.StreamBytesConcat | rust/gptl-transport/src/circuit.rs:49-68 | the bytes a cell sequence carries on a stream are those of its parts in order |
| Streams.QueueGetsItsCells | rust/gptl-transport/src/circuit.rs:444-509 | from opening on, a stream's queue receives exactly the inbound stream cells with its id, in order, up to the first End, through any other openings, closings and re-use of the id |
| Streams.ClosedChannelIsFrozen | rust/gptl-transport/src/circuit.rs:444-509 | a channel that no stream is registered under never changes again |
| Streams.ReaderSeesStreamBytes | rust/gptl-transport/src/circuit.rs:71-79 | what a reader obtains is what the Data cells of its stream carried up to its first End, if any |
| Streams.ReadingStopsAtEnd | rust/gptl-transport/src/circuit.rs:71-79 | nothing behind an End is read |
| Streams.MessageKinds | rust/gptl-transport/src/circuit.rs:460-505 | what each stream command puts on the channel of its stream |
| Streams.ReplyReachesExtension | rust/gptl-transport/src/circuit.rs:449-458 | Extended reaches a waiting extension as the reply, ExtendFailed as a refusal with its data; neither touches a stream, and without an extension nothing changes |
| Streams.FirstReplyDecides | rust/gptl-transport/src/circuit.rs:444-509 | over any run the first Extended or ExtendFailed cell after arming decides the extension, and no later cell changes that |
| Streams.NthOddInjective | rust/gptl-transport/src/circuit.rs:542-571 | the wrap-around walk over odd ids repeats none of 32768 within one cycle |
| Streams.DistinctOdds | rust/gptl-transport/src/circuit.rs:542-571 | k steps of the walk see k different ids: the pigeonhole step |
| Circuit.OneHopTransparency | rust/gptl-transport/src/circuit.rs:332-429 | one hop: a cell goes out if and only if it fits and the counter is not exhausted; the mirror cipher peels it back to the same cell with equal counters |
| Circuit.PeelByType | rust/gptl-transport/src/circuit.rs:374-429 | Destroy and nothing else closes the circuit; of the other types all but Relay are ignored and leave the ciphers as they are |
| Circuit.FirstRelayAlone | rust/gptl-transport/src/circuit.rs:396-429 | of what the first of two relays says in its own name only replies to an extension get through; a Forward cell has to carry 486 bytes |
| Circuit.SendSucceedsIff | rust/gptl-transport/src/circuit.rs:332-370 | a send succeeds if and only if the cell fits and no counter is spent; a failed one changes no counter, save the inner one if and only if just the outer one was spent |
| Circuit.Circuit.SendRelayCellRaw | rust/gptl-transport/src/circuit.rs:332-370 | one or two layers; in two hops the inner counter has moved even when the outer seal fails |
| Circuit.Circuit.DecryptToInner | rust/gptl-transport/src/circuit.rs:374-429 | peels one or two layers, with every error and its counter effect |
| Circuit.Circuit.HandleInboundCell | rust/gptl-transport/src/circuit.rs:431-442 | an inbound cell is peeled, then dispatched; Destroy, and nothing else, closes the circuit, and the other types but Relay are ignored |
| Circuit.Circuit.DispatchRelayCell | rust/gptl-transport/src/circuit.rs:444-509 | a relay cell reaches the one-shot of `extend`, as reply or refusal, the channel of its stream, or nothing |
| Circuit.Circuit.AllocStreamId | rust/gptl-transport/src/circuit.rs:542-571 | the first free odd id at or after the cursor, if and only if fewer than 32767 streams are open; the second error is unreachable |
| Circuit.Circuit.RegisterStream | rust/gptl-transport/src/circuit.rs:267-274 | an allocated id gets a fresh empty channel, nothing else changes |
| Circuit.Circuit.OpenStream | rust/gptl-transport/src/circuit.rs:267-291 | registers, then sends Begin; when sending fails the stream stays registered |
| Circuit.Circuit.BeginExtend | rust/gptl-transport/src/circuit.rs:180-228 | refuses a third hop, a malformed relay key and an oversized payload, in this order, and then changes nothing; else arms the one-shot and sends Extend |
| Circuit.ExtendRefusedIff | rust/gptl-transport/src/circuit.rs:180-211 | an extension is not refused, if and only if there is one hop so far, the key is well formed and the address has at most 386 bytes |
| Circuit.Circuit.FinishExtend | rust/gptl-transport/src/circuit.rs:239-262 | adds exactly one hop with fresh counters, if and only if the reply is long enough and the handshake completes |
| Onion.FlushIsSendRaw | rust/gptl-transport/src/circuit.rs:332-370 | the driver step of the two-hop machine is the circuit's own send: same counters, same seals, same failures |
| Onion.ConnectIsSendRaw | rust/gptl-transport/src/circuit.rs:267-283 | opening a stream sends its Begin cell past the queue as the circuit's own send does, also when the cell is too long or a counter is exhausted |
| Onion.RunKeepsInv | rust/gptl-transport/src/circuit.rs:267-370 | over every run of writes, chunking, flushing, stream openings past the queue and non-forging network and first-relay moves both links and all stream accounts keep their invariant |
| Onion.WriteIsChunked | rust/gptl-transport/src/circuit.rs:49-68 | an uninterrupted write of the machine queues exactly the cells that the stream's `write` sends |
| Onion.ExitDecodesTheNext | rust/gptl-transport/src/crypto.rs:161-175 | whatever reaches the exit, it decodes either nothing or exactly the next cell the client sent |
| Onion.ExitSeesPrefixOfWrites | rust/gptl-transport/src/circuit.rs:49-370 | safety on two hops: on each stream the exit gets a prefix of what was written to it |
| Onion.FaithfulFlushDelivers | rust/gptl-transport/src/cell.rs:60-62 | one cell through encode_inner, inner seal, Forward, encode, outer seal and to_bytes is undone in order by the mirror peers |
| Onion.TwoHopTransparency | rust/gptl-transport/src/circuit.rs:49-370 | over every interleaving of writes and stream openings with a delivering network each stream arrives whole except for what is still queued, with equal counters at both hops |
| OnionReturn.PeelUnwraps | rust/gptl-transport/src/circuit.rs:374-429 | the client's peeling undoes what exit and first relay wrapped, and moves both counters by one |
| OnionReturn.ReturnTransparency | rust/gptl-transport/src/circuit.rs:374-429 | the client recovers exactly the exit's cells, and all counters keep pace |
| OnionReturn.StreamTransparency | rust/gptl-transport/src/circuit.rs:71-509 | over a delivering return path the reader of an open stream gets exactly the bytes the exit sent on it up to its first End, whatever else is opened meanwhile |
| OnionReturn.ToClientIsPeel | rust/gptl-transport/src/circuit.rs:374-429 | the link model of the return path follows the client's own ciphers |
| OnionReturn.ReturnRunKeepsInv | rust/gptl-transport/src/circuit.rs:374-509 | over any run with a hostile network and first relay only the exit's next cell can reach a stream |
| OnionReturn.ReaderSeesPrefixOfExit | rust/gptl-transport/src/circuit.rs:71-79 | a stream's queue holds exactly what was logged for it, and its reader gets a prefix of what the exit sent |
| Ratchet.KeyRatchet.New | rust/gptl-crypto/src/ratchet.rs:145-177 | root and both chains from the shared secret, chains swapped by role |
| Ratchet.KeyRatchet.NextSendKey | rust/gptl-crypto/src/ratchet.rs:180-198 | the next message key and chain key of the sending chain; root and receiving chain unchanged |
| Ratchet.KeyRatchet.NextRecvKey | rust/gptl-crypto/src/ratchet.rs:200-218 | the next message key and chain key of the receiving chain |
| Ratchet.KeyRatchet.RatchetDh | rust/gptl-crypto/src/ratchet.rs:226-252 | a DH step replaces the root and one chain and restarts its count |
| Ratchet.RunKeepsSynced | rust/gptl-crypto/src/ratchet.rs:180-252 | synchronisation up to packets in flight is kept by every run of allowed moves |
| Ratchet.ReceivedKeysMatch | rust/gptl-crypto/src/ratchet.rs:145-252 | over all runs every received key equals the key its sender derived at that position; with nothing in flight both parties hold the same root and each other's chains |
| Ratchet.AllowedIsExact | rust/gptl-crypto/src/ratchet.rs:226-252 | a move keeps a synchronised session synchronised if and only if it is no DH step sent against one in flight |
| Ratchet.CrossingDhBreaksSync | rust/gptl-crypto/src/ratchet.rs:226-252 | two crossing DH steps leave each next message under a key the peer does not derive |
| Ratchet.ForwardSecrecy | rust/gptl-crypto/src/ratchet.rs:180-269 | after any run no message key derived so far follows from the stored keys, even with all other message keys |
| Ratchet.MessageKeysDistinct | rust/gptl-crypto/src/ratchet.rs:180-269 | all message keys of one party, on both chains, are pairwise distinct |
| Ratchet.CountsFromStart | rust/gptl-crypto/src/ratchet.rs:145-252 | over any run each message count is the number of steps its chain has taken since it was started |
| Ratchet.RecoveryAfterDh | rust/gptl-crypto/src/ratchet.rs:226-269 | without a later DH output no key of the chain it starts can be computed from everything seen before |
| SybilGraph.BuildAdjacency | rust/gptl-routing/src/sybil_defense.rs:444-461 | the adjacency links exactly the identities of similar relays at different positions |
| SybilGraph.SimilarityIsSymmetric | rust/gptl-routing/src/sybil_defense.rs:444-461 | the adjacency is symmetric |
| SybilGraph.FindConnectedComponent | rust/gptl-routing/src/sybil_defense.rs:540-566 | for any graph and visited set the search ends and returns, each once, exactly the nodes reachable outside the visited set, which grows by these |
| SybilGraph.CalculateDensity | rust/gptl-routing/src/sybil_defense.rs:569-583 | of any node list, with or without repeats, the linked ordered pairs of the list among all pairs of places, zero below two nodes; without repeats this is the density of the set |
| SybilGraph.DensityAtMostOne | rust/gptl-routing/src/sybil_defense.rs:569-583 | with distinct identities the density lies in [0,1] |
| SybilGraph.DensityAtMostOneIff | rust/gptl-routing/src/sybil_defense.rs:440-583 | no class of any similarity is denser than one, if and only if no identity is listed twice or all relays have one identity |
| SybilGraph.RepeatedIdentityExceedsOne | rust/gptl-routing/src/sybil_defense.rs:440-583 | any identity listed twice beside another one: with all relays similar its class is denser than one |
| SybilGraph.ExamineAll | rust/gptl-routing/src/sybil_defense.rs:463-490 | the components found are disjoint, cover all identities, and are the reachability classes; the groups are the large dense ones in order |
| SybilGraph.DetectGraphBased | rust/gptl-routing/src/sybil_defense.rs:440-490 | for any relays and similarity an identity is reported if and only if its reachability class has at least four members and more than seven tenths of its ordered pairs are linked, in a group that is this class with this density; no two groups share a member, and every group consists of listed identities and is not empty |
| SybilGraph.ComponentIsClass | rust/gptl-routing/src/sybil_defense.rs:463-485 | the component of an identity is, as a set, its reachability class |
| SybilGraph.ReportedIffSuspicious | rust/gptl-routing/src/sybil_defense.rs:463-490 | an identity is reported if and only if its class has at least four members and density above 0.7; the group is that class without duplicates, and the only one (the lemma behind the detector) |
| ResourceGuard.Guard.ReserveMemory | rust/gptl-routing/src/resource_protection.rs:201-209 | reserves if and only if the total is not exceeded |
| ResourceGuard.QuotaInNumbers | rust/gptl-routing/src/resource_protection.rs:284-301 | what a circuit of some difficulty is granted, in bytes, and that nothing else changes |
| ResourceGuard.Guard.EnqueueKill | rust/gptl-routing/src/resource_protection.rs:227-231 | push and stable sort by difficulty |
| ResourceGuard.Guard.OomTick | rust/gptl-routing/src/resource_protection.rs:153-173 | the kill section under all three locks |
| ResourceGuard.StableSortSorts | rust/gptl-routing/src/resource_protection.rs:227-231 | the sort orders, permutes, and keeps ties in order |
| ResourceGuard.ExecutionKeepsInv | rust/gptl-routing/src/resource_protection.rs:146-255 | in every interleaving of the locked sections with fresh ids: memory in use equals stored plus in flight, never exceeds the total, the kill queue stays sorted |
| ResourceGuard.FreeNeverSaturates | rust/gptl-routing/src/resource_protection.rs:241-255 | no saturating subtraction ever saturates |
| ResourceGuard.QuiescentPoolIsStored | rust/gptl-routing/src/resource_protection.rs:181-255 | between calls the pool counts exactly the stored quotas |
| ResourceGuard.KillAllConserves | rust/gptl-routing/src/resource_protection.rs:153-173 | a tick kills every queued circuit whatever its place in the queue, and frees exactly their memory |
| ResourceGuard.StoreConservesIffFresh | rust/gptl-routing/src/resource_protection.rs:211-223 | a store conserves memory if and only if its random id is not in use |
| ResourceGuard.ConservedIffFresh | rust/gptl-routing/src/resource_protection.rs:146-255 | from a new guard on, in every interleaving, fresh ids or not: in use is stored plus in flight plus all that stores ever overwrote; so memory is conserved at the end if and only if no store met an id in use |
| ResourceGuard.ExecutionKeepsKillable | rust/gptl-routing/src/resource_protection.rs:146-255 | in every interleaving each stored circuit is queued or about to be, and none is stored while it is released |
| ResourceGuard.NoCircuitEscapes | rust/gptl-routing/src/resource_protection.rs:146-255 | so, from a new guard on, a tick that meets no task between storing and queueing leaves nothing stored, and in use exactly what is in flight or lost |
| Deadlock.NothingGoesOnIff | rust/gptl-routing/src/resource_protection.rs:146-255 | while the quota lock has at most one holder, nothing begun can go on, if and only if a release waits for the kill queue that the tick holds while it waits for the quotas |
| Deadlock.RunKeepsOneHolder | rust/gptl-routing/src/resource_protection.rs:146-255 | over any run the quota lock has at most one holder |
| Deadlock.DeadlockIsForever | rust/gptl-routing/src/resource_protection.rs:146-255 | from a deadlock on, whatever is tried, no quota is stored or released and no circuit queued or killed, while memory in use can only grow |
| Deadlock.DeadlockReachableIff | rust/gptl-routing/src/resource_protection.rs:146-255 | some run of circuits up to a difficulty limit deadlocks, if and only if some number of such circuits fit the pool together and fill more than nine tenths of it |
| Deadlock.DefaultDeadlocks | rust/gptl-routing/src/resource_protection.rs:96-114 | the default pool and difficulty can deadlock |
| Windows.RegistryRateLimiter.CheckRequest | rust/gptl-core/src/relay_registry.rs:897-916 | prune, count, refuse or record |
| Windows.RegistryRateLimiter.CleanUp | rust/gptl-core/src/relay_registry.rs:919-927 | exactly the clients with a request inside the window stay, each with exactly its recent requests in order, none empty |
| Windows.DecisionInNumbers | rust/gptl-core/src/relay_registry.rs:897-916 | in every state a run can reach a request is accepted, if and only if the limit is not zero and its client has had fewer accepts than the limit or the one that many accepts ago is a window old |
| Windows.PrunedLimiterIsFull | rust/gptl-core/src/relay_registry.rs:897-927 | over any run the pruning limiter decides as one that forgets nothing, and no window holds more than `max_requests` accepts of one client |
| Windows.PowVerifier.VerifyWork | rust/gptl-routing/src/resource_protection.rs:313-353 | checks digest, difficulty and replay cache, then prunes and records |
| Windows.AcceptedInNumbers | rust/gptl-routing/src/resource_protection.rs:313-353 | a work is accepted, if and only if its hash is the digest, each byte within the first `difficulty` bits is zero, and no accept of that hash is less than 300 s old |
| Windows.VerifyIsFull | rust/gptl-routing/src/resource_protection.rs:313-353 | the pruned cache decides exactly as the full list of accepts would |
| Windows.NoReplayWithinWindow | rust/gptl-routing/src/resource_protection.rs:313-353 | over any run no hash is accepted twice within 300 seconds |
| Bootstrap.CanonicalDirectoryBytes | rust/gptl-transport/src/bootstrap.rs:156-167 | domain tag, count and length-prefixed fields |
| Bootstrap.CanonicalLayout | rust/gptl-transport/src/bootstrap.rs:148-167 | the domain tag byte by byte, the count, then the descriptors in order |
| Bootstrap.DescriptorLayout | rust/gptl-transport/src/bootstrap.rs:156-167 | nickname, address and key string, each behind its length |
| Bootstrap.CanonicalInjective | rust/gptl-transport/src/bootstrap.rs:151-167 | no two lists whose lengths fit 32 bits share a signing message |
| Bootstrap.InjectiveBelowIff | rust/gptl-transport/src/bootstrap.rs:151-167 | signing messages of fewer than n bytes determine their list, if and only if n is at most the length of the shortest collision: domain tag, 16 bytes and 2^32 |
| Bootstrap.ShortestCollision | rust/gptl-transport/src/bootstrap.rs:156-167 | the length casts to 32 bits collide: two one-relay lists share a message of that length |
| Bootstrap.ShortIsInjective | rust/gptl-transport/src/bootstrap.rs:156-167 | below that length one short message suffices; nothing is asked of the other list |
| Bootstrap.Validate | rust/gptl-transport/src/bootstrap.rs:117-146 | accepts if and only if nonempty, well formed and free of repeated strings; else the error of the first bad entry |
| Bootstrap.PubkeyOkIff | rust/gptl-transport/src/bootstrap.rs:28-38 | a key string is well formed, if and only if it is 64 hexadecimal digits |
| Bootstrap.ErrorMeans | rust/gptl-transport/src/bootstrap.rs:127-142 | what each error says about its entry, in the order of the checks |
| Bootstrap.SameKeyIffSameUpToCase | rust/gptl-transport/src/bootstrap.rs:28-38 | two key strings decode to one key if and only if they differ at most in letter case |
| Bootstrap.SpellingsHideDuplicate | rust/gptl-transport/src/bootstrap.rs:117-146 | validation compares strings, so one key in two spellings is accepted twice |
| Bootstrap.KeysDistinctIff | rust/gptl-transport/src/bootstrap.rs:117-146 | a validated list names every key once, if and only if no two of its key strings differ in letter case alone |
| Bootstrap.HexRoundTrip | rust/gptl-transport/src/bootstrap.rs:195-205 | hexadecimal decoding undoes encoding |
| Bootstrap.HexDecodesIff | rust/gptl-transport/src/bootstrap.rs:208-239 | what decodes: an even number of digits of either case |
| Bootstrap.DecodedIff | rust/gptl-transport/src/bootstrap.rs:208-239 | white space around it aside, a key is 64 hexadecimal digits and a signature 128 |
| Bootstrap.Sign | rust/gptl-transport/src/bootstrap.rs:195-205 | the signature over the canonical bytes, and the key, in hexadecimal |
| Bootstrap.Verify | rust/gptl-transport/src/bootstrap.rs:208-239 | accepts if and only if the pinned key, its signature and the validation all hold; else the error of the first check that fails |
| Bootstrap.SignedIsAuthentic | rust/gptl-transport/src/bootstrap.rs:195-239 | whoever signs gets an authentic directory |
| Bootstrap.AcceptedWasSigned | rust/gptl-transport/src/bootstrap.rs:208-239 | if its signature is no forgery, and signed messages are shorter than the shortest collision, an accepted directory carries a list the pinned authority signed, with distinct nicknames and key strings |
| Bootstrap.SignedIsAccepted | rust/gptl-transport/src/bootstrap.rs:195-239 | a valid list that is signed is accepted under the signer's key, and its signature is genuine if and only if the list is among those the signer signed |
| Rtr.Stream.ReadPduHeader | rust/gptl-routing/src/rpki_rtr.rs:243-270 | eight bytes and the two length checks; the version is returned unchecked |
| Rtr.Stream.DrainRemaining | rust/gptl-routing/src/rpki_rtr.rs:273-285 | consumes the rest of a PDU as far as the stream goes |
| Rtr.Stream.ReadPrefixPdu | rust/gptl-routing/src/rpki_rtr.rs:300-359 | one IPv4 or IPv6 prefix PDU of its exact length |
| Rtr.Stream.ReadEnd | rust/gptl-routing/src/rpki_rtr.rs:362-379 | the serial of End of Data in either version |
| Rtr.Stream.ParseErrorReport | rust/gptl-routing/src/rpki_rtr.rs:381-424 | code and message of an Error Report, best effort |
| Rtr.Stream.ReadPrefixes | rust/gptl-routing/src/rpki_rtr.rs:190-221 | the PDU loop equals the recursive reader of the remaining bytes |
| Rtr.Stream.Exchange | rust/gptl-routing/src/rpki_rtr.rs:145-229 | the whole client equals the reader of the server's bytes, whatever they are |
| Rtr.ParseOfPrint | rust/gptl-routing/src/rpki_rtr.rs:145-379 | Cache Response, any prefixes mixed with Router Keys, End of Data (sections 5.5 to 5.10 of RFC 8210): exactly the prefixes in order, with session and serial |
| Rtr.PrintedTypes | rust/gptl-routing/src/rpki_rtr.rs:190-359 | the version, type, length and flag bytes of the printed PDUs |
| Rtr.ReportReadBack | rust/gptl-routing/src/rpki_rtr.rs:381-424 | an Error Report instead of an answer, or among the prefixes, ends the exchange with exactly its code and text |
| Rtr.CutReport | rust/gptl-routing/src/rpki_rtr.rs:395-424 | of a payload cut short the text is what is left of it |
| Rtr.BadLength | rust/gptl-routing/src/rpki_rtr.rs:253-268 | a length below 8 or above 16384 ends the exchange wherever it comes |
| Rtr.FirstPduErrors | rust/gptl-routing/src/rpki_rtr.rs:160-189 | the error of each first PDU that is no answer |
| Rtr.LaterPduErrors | rust/gptl-routing/src/rpki_rtr.rs:190-229 | the error of each later PDU that is of the wrong type or length; Router Keys are skipped |
| Rtr.CutErrorIsIo | rust/gptl-routing/src/rpki_rtr.rs:273-285 | such a PDU cut short is an I/O error, and an Error Report an unreadable one |
| Rtr.EveryCutIsIo | rust/gptl-routing/src/rpki_rtr.rs:145-379 | every proper prefix of those bytes is an I/O error |
| Dns.JoinOfSplit | rust/gptl-routing/src/dns_protection.rs:390-399 | splitting a domain at dots loses nothing and leaves no dot |
| Dns.BuildDnsQuery | rust/gptl-routing/src/dns_protection.rs:373-408 | the query of section 4.1 of RFC 1035, or an error if and only if a label exceeds 63 bytes |
| Dns.QueryLayout | rust/gptl-routing/src/dns_protection.rs:373-408 | the bytes of a query by their place |
| Dns.ParseDnsResponse | rust/gptl-routing/src/dns_protection.rs:411-498 | total: never outside the bytes and ending on every byte string; equals the recursive reader, with the cause of each error |
| Dns.ParseRecord | rust/gptl-routing/src/dns_protection.rs:436-489 | one record: name, fixed part and data, if it is whole |
| Dns.SkipName | rust/gptl-routing/src/dns_protection.rs:437-446 | a pointer is two bytes, anything else is skipped label by label |
| Dns.QuestionReadBack | rust/gptl-routing/src/dns_protection.rs:421-431 | the question loop reaches the end of printed labels if and only if none is empty |
| Dns.RecordReadBack | rust/gptl-routing/src/dns_protection.rs:434-489 | a printed record is consumed whole and gives its address if it is of type 1 with four bytes or of type 28 with sixteen, and else none |
| Dns.ParseOfPrint | rust/gptl-routing/src/dns_protection.rs:411-498 | header, question and any pointer- or label-named records: in order exactly the data of the type 1 records of four bytes and the type 28 records of sixteen, or an error if there are none |
| Dns.ParseOfCut | rust/gptl-routing/src/dns_protection.rs:411-498 | with the answers cut short anywhere: exactly the addresses of the whole records |
| Dns.QuestionRunsOff | rust/gptl-routing/src/dns_protection.rs:421-431 | a question whose last label reaches the end of the bytes is malformed |
| Dns.NameInNumbers | rust/gptl-routing/src/dns_protection.rs:437-446 | a first byte from 192 on is a pointer, below it the length of a label |
| Dns.QueryWellFormedIff | rust/gptl-routing/src/dns_protection.rs:373-408 | a query built has a well formed question with a name of at most 255 octets (section 3.1 of RFC 1035), if and only if no label is empty and the domain has at most 253 bytes |
| CircuitPool.CircuitPool.Acquire | rust/gptl-transport/src/circuit_pool.rs:175-194 | hands out the first circuit that is usable when it is looked at and records its age and usage |
| CircuitPool.CircuitPool.Release | rust/gptl-transport/src/circuit_pool.rs:197-224 | restores age and usage, counts one stream, discards when stale |
| CircuitPool.CircuitPool.Refill | rust/gptl-transport/src/circuit_pool.rs:229-257 | builds up to the target size or the first failure |
| CircuitPool.RefilledInNumbers | rust/gptl-transport/src/circuit_pool.rs:229-257 | the circuits built one after the other are added, until the pool has its size or a build fails, behind those it has |
| CircuitPool.UsableInNumbers | rust/gptl-transport/src/circuit_pool.rs:71-77 | usable is younger than the age limit and lent out less often than the stream limit |
| CircuitPool.CircuitPool.Maintain | rust/gptl-transport/src/circuit_pool.rs:260-276 | evicts every circuit that is unusable at the time it is looked at, then refills |
| CircuitPool.RetainedIsUsablePart | rust/gptl-transport/src/circuit_pool.rs:267-270 | retaining keeps exactly the usable circuits |
| CircuitPool.RefillIsBuilds | rust/gptl-transport/src/circuit_pool.rs:229-257 | a refill is a run of single builds with fresh ids |
| CircuitPool.MaintenanceIsRun | rust/gptl-transport/src/circuit_pool.rs:229-276 | a maintenance call is a run of one eviction and single builds, so it keeps what every run keeps |
| CircuitPool.RunKeepsInv | rust/gptl-transport/src/circuit_pool.rs:175-276 | every run of take, on-demand build, return, drop, evict and build keeps pool, leases and histories in step |
| CircuitPool.LeasesKeepAgeAndUsage | rust/gptl-transport/src/circuit_pool.rs:175-276 | a pool-built circuit neither dropped nor retired is in exactly one of pool and lease map with its own age and completed leases; handed out at most the stream limit and never once expired |
| CircuitPool.HandOutsAreCapped | rust/gptl-transport/src/circuit_pool.rs:175-224 | the stream limit caps the hand-outs of every circuit |
| CircuitPool.OnDemandAgeFromFirstReturn | rust/gptl-transport/src/circuit_pool.rs:175-224 | over any run every hand-out but the first of a circuit built on demand is within the age limit counted from its first return |
| CircuitPool.OverAgeIff | rust/gptl-transport/src/circuit_pool.rs:175-224 | in every state a run can reach a pooled circuit can now or later be handed out over its true age, if and only if its stored creation time is after its birth and it is usable now; only circuits built on demand have such a time, that of their first return |
| CircuitPool.OverAgePossibleIff | rust/gptl-transport/src/circuit_pool.rs:175-224 | some run hands out a circuit over its true age, if and only if the limits let a circuit come back to the pool at all |
| CircuitPool.AnyAgeIsHandedOut | rust/gptl-transport/src/circuit_pool.rs:197-224 | a circuit built on demand that was out for any length of time is handed out at once |
| CircuitPool.LeasesKeptIffDistinctIds | rust/gptl-transport/src/circuit_pool.rs:175-224 | two circuits that are out both come back with their age and usage, whenever returned, if and only if their ids differ |
| RelaySelector.Registry.ListMatching | rust/gptl-core/src/relay_registry.rs:539-562 | the relays that meet the criteria, in table order |
| RelaySelector.Registry.UpdateHealth | rust/gptl-core/src/relay_registry.rs:564-578 | changes one relay's health and nothing else |
| RelaySelector.Selector.FilterRecentFailures | rust/gptl-core/src/relay_selector.rs:387-412 | drops relays inside their back-off; panics if and only if no retries are configured and a listed relay has a record |
| RelaySelector.Selector.ExcludeFromHistory | rust/gptl-core/src/relay_selector.rs:415-432 | drops relays in the history unless that drops all |
| RelaySelector.Selector.UpdateHistory | rust/gptl-core/src/relay_selector.rs:435-442 | the pick comes last, and of what came before as much stays as the limit allows, in order |
| RelaySelector.Selector.SelectBandwidthWeighted | rust/gptl-core/src/relay_selector.rs:466-507 | the weighted pick of a draw, random when the 64-bit total is zero |
| RelaySelector.Selector.TakeShare | rust/gptl-core/src/relay_selector.rs:482-494 | the subtracting loop always returns; its fallback is unreachable |
| RelaySelector.Selector.SelectWithCriteria | rust/gptl-core/src/relay_selector.rs:191-260 | one selection and its effect on history and counts, under each strategy with the panics of its scores; the branch that clears the history is unreachable |
| RelaySelector.Selector.SelectMultiple | rust/gptl-core/src/relay_selector.rs:263-299 | one selection per hop with growing exclusions, up to the first error or panic |
| Selection.SelectionSucceedsIff | rust/gptl-core/src/relay_selector.rs:191-260 | whatever records, history, strategy and draw: an error if and only if no relay meets the criteria; else a panic if and only if the back-off or the scores are undefined, and success otherwise |
| Selection.HybridPanicsOnIdleRelays | rust/gptl-core/src/relay_selector.rs:622-692 | under hybrid scoring, the default, a selection panics when the matching relays report no bandwidth |
| Selection.SelectionIsSafe | rust/gptl-core/src/relay_selector.rs:191-260 | the pick meets the criteria; it is in back-off only if every match is, and in the history only if it has to be |
| Selection.PickInNumbers | rust/gptl-core/src/relay_registry.rs:186-562 | the pick has at least the security and bandwidth asked for, on a scale of levels, was seen recently enough, and is excluded by nothing |
| Selection.MatchInNumbers | rust/gptl-core/src/relay_registry.rs:186-562 | and a relay of which this holds matches |
| Selection.BackOffInNumbers | rust/gptl-core/src/relay_selector.rs:387-412 | a relay rests for one cooldown a failure, at least one and at most the retries configured |
| Selection.BlameInNumbers | rust/gptl-core/src/relay_selector.rs:302-345 | a reported failure is one more in 32 bits, dates the record, and from the configured retries on degrades that relay alone |
| Selection.PickPanicsInFields | rust/gptl-core/src/relay_selector.rs:387-692 | when a pick is undefined, in the fields of its candidates |
| Selection.RandomPicksEach | rust/gptl-core/src/relay_selector.rs:445-464 | a random pick takes each relay for one of as many draws |
| Selection.HistoryIsLastPicks | rust/gptl-core/src/relay_selector.rs:191-260 | over any run of selections the history holds the last picks in order, as many as its limit, and every pick is counted |
| Selection.ShareOf | rust/gptl-core/src/relay_selector.rs:476-494 | how many draws below a total pick a relay: its interval cut at the total |
| Selection.ExactWeightingIffSumFits | rust/gptl-core/src/relay_selector.rs:476-494 | every relay is picked for exactly as many draws as its bandwidth, if and only if the sum fits 64 bits |
| Selection.SelectedManyIsSafe | rust/gptl-core/src/relay_selector.rs:263-299 | selected relays are listed, pairwise different, meet the default criteria apart from its exclusion lists, and share no known country when spread |
| Selection.SelectedManyMeetCriteria | rust/gptl-core/src/relay_selector.rs:263-299 | with default criteria whose overwritten lists are empty all selected relays meet them |
| Selection.SelectedManySucceedsIff | rust/gptl-core/src/relay_selector.rs:263-299 | a call that does not panic succeeds if and only if a first hop exists and there are as many relays as hops, or when spreading as many known countries and relays of unknown country; draws, records and history do not matter |
| Selection.ManyNeverPanicsIff | rust/gptl-core/src/relay_selector.rs:191-299 | no registry, record, history and draw panics, if and only if retries are configured and the strategy cannot meet undefined scores, or no relay can meet the first hop's criteria |
| Selection.DefaultExclusionsKeptIff | rust/gptl-core/src/relay_selector.rs:263-299 | all results of calls for up to n relays meet the default criteria, if and only if their id list is empty and, when spreading over two or more hops without a required region, their region list too; or no first hop exists, or n is zero |
| Selection.SecondHopOverwrites | rust/gptl-core/src/relay_selector.rs:272-290 | the region list is overwritten at the second hop: a relay of an excluded region is returned |
| Failover.FailoverManager.RefillBackupPool | rust/gptl-routing/src/failover.rs:445-483 | selects what the pool lacks; a failed selection leaves it as it is |
| Failover.FailoverManager.AssignBackupRelay | rust/gptl-routing/src/failover.rs:487-506 | pops the oldest backup for the circuit and refills below half |
| Failover.FailoverManager.RegisterCircuit | rust/gptl-routing/src/failover.rs:285-319 | stores the circuit, assigns a backup, announces it |
| Failover.FailoverManager.RecordRelayFailure | rust/gptl-routing/src/failover.rs:568-609 | counts in 32 bits, keeps the last ten reasons, tells the selector, marks unhealthy from the third in a row |
| Failover.FailoverManager.PerformFailover | rust/gptl-routing/src/failover.rs:508-566 | the backup unless it is the failed relay, else the selector |
| Failover.FailoverManager.ReportFailure | rust/gptl-routing/src/failover.rs:322-373 | record, announce, fail over, announce the ending; a panic of the selector ends the call behind what was done so far |
| Failover.FailoverManager.ReportActivity | rust/gptl-routing/src/failover.rs:376-389 | activity, bytes, and a degraded circuit becomes active |
| Failover.FailoverManager.CheckStaleCircuits | rust/gptl-routing/src/failover.rs:611-635 | the active circuits without activity for five minutes become degraded; every other circuit, field and key stays |
| FailoverRuns.RefillFillsOrLeaves | rust/gptl-routing/src/failover.rs:445-483 | a refill fills the pool up to its minimum with different listed relays of different known countries that meet the default criteria, or adds none |
| FailoverSettings.RefillFillsIff | rust/gptl-routing/src/failover.rs:445-483 | a refill that does not panic fills the pool, if and only if it is full already or a first hop exists and there are as many known countries and relays of unknown country as backups are lacking; else, or when it panics, the pool stays as it is |
| FailoverSettings.RunKeepsKnown | rust/gptl-routing/src/failover.rs:568-609 | over any run the selector has a failure record of every relay the manager has one of |
| FailoverSettings.NeverAddsFailedIff | rust/gptl-routing/src/failover.rs:445-470 | in no state that keeps these invariants a refill adds a relay with a failure record, if and only if nothing is ever added, or no retries are configured and such a relay makes the selection panic |
| FailoverSettings.NoRunAddsFailedIff | rust/gptl-routing/src/failover.rs:445-470 | the same over runs from an empty manager, where a pool of several relays of one required region is never stocked either |
| FailoverSettings.OneRegionNeverStocks | rust/gptl-routing/src/failover.rs:445-483 | over any run a pool of two or more is never stocked when the default criteria require one region |
| FailoverRuns.OrderlyTraceIsPaired | rust/gptl-routing/src/failover.rs:344-372 | in an orderly trace every announced failure has exactly one ending, or one panic that cut it off |
| FailoverRuns.ReportedFailureLog | rust/gptl-routing/src/failover.rs:322-373 | a reported failure of a known circuit is announced once and ends once, the ending last, unless a panic cuts it off |
| FailoverRuns.BackupOutcome | rust/gptl-routing/src/failover.rs:322-566 | with a backup other than the failed relay the circuit moves to it and recovers, and the backup is returned unless the refill that follows panics; no other circuit changes |
| FailoverRuns.SelectorOutcome | rust/gptl-routing/src/failover.rs:322-566 | without one: success if and only if another usable listed relay exists and the pick among those is defined; then the stored primary is the returned, different relay and the circuit recovers, else the primary stays and the circuit is failed, by error or panic; no other circuit changes |
| FailoverRuns.IdleRelaysCutReportOff | rust/gptl-routing/src/failover.rs:322-566 | under hybrid scoring, when every other usable relay reports no bandwidth, the report of a circuit without a backup is announced and never ends |
| FailoverSettings.ReportsAlwaysEndIff | rust/gptl-routing/src/failover.rs:322-566 | in no run from any selector and registry an announced failure is cut off, if and only if retries are configured, the strategy is not hybrid, and it is not geographic with a known client location |
| FailoverSettings.EveryFailureEnds | rust/gptl-routing/src/failover.rs:322-566 | under such settings announcements and endings are equally many after every run |
| FailoverSettings.BackupsNeverCutOffIff | rust/gptl-routing/src/failover.rs:487-566 | in no state that keeps the invariant a failover to a backup panics, if and only if the pool minimum is below two, the settings exclude undefined choices, or no relay can be a first hop |
| FailoverRuns.SafeAssignment | rust/gptl-routing/src/failover.rs:487-506 | under settings that cannot panic no assignment of a backup does |
| FailoverRuns.UnhealthyFromThird | rust/gptl-routing/src/failover.rs:588-608 | the relay is announced unhealthy and marked degraded exactly from its third failure since a recovery on, save that the 32-bit count starts anew |
| FailoverRuns.RecordedKeeps | rust/gptl-routing/src/failover.rs:568-609 | recording changes the health of no relay but the failed one |
| FailoverRuns.RunKeepsInv | rust/gptl-routing/src/failover.rs:285-673 | over any run: announced failures and endings alternate per circuit but for reports a panic cut off, popped backups followed by the pool are all refilled relays in order, records end in the newest reason and hold the last ten in order, and count the failures since the last recovery |
| FailoverRuns.EveryRun | rust/gptl-routing/src/failover.rs:285-673 | the same from an empty manager, in counts and lists |
| FailoverRuns.SelectorTrace | rust/gptl-routing/src/failover.rs:322-566 | the events of a report without a backup, one by one |
| FailoverRuns.BackupTrace | rust/gptl-routing/src/failover.rs:322-566 | the events of a report with a backup, one by one |
| FailoverRuns.RegisteredInFields | rust/gptl-routing/src/failover.rs:285-319 | the fields of a new circuit, its backup and its event |
| FailoverRuns.AssignedInNumbers | rust/gptl-routing/src/failover.rs:487-506 | the oldest backup goes, and a refill follows if and only if the pool had at most half its minimum |
| FailoverRuns.ActivityKeepsFromSweep | rust/gptl-routing/src/failover.rs:376-389 | a circuit with activity in the last five minutes is not degraded by a sweep, even one that was |
| FailoverRuns.SweptInNumbers | rust/gptl-routing/src/failover.rs:611-635 | a sweep degrades exactly the active circuits without activity for more than 300 s |
| FailoverRuns.RecoveredInFields | rust/gptl-routing/src/failover.rs:637-673 | a relay recovers once its last failure is more than 300 s ago: healthy, announced, its streak at zero |
| Guards.GuardManager.RotateIfExpired | rust/gptl-transport/src/guard.rs:193-239 | drops expired and unlisted guards, tops up from shuffled eligible relays |
| Guards.GuardManager.Initialize | rust/gptl-transport/src/guard.rs:294-317 | loads, rotates; an unreadable state file is an error and a missing one an empty list; the fresh selection after an empty rotation adds nothing |
| Guards.GuardManager.SelectEntryRelay | rust/gptl-transport/src/guard.rs:323-343 | a usable listed guard, or any listed relay when too few guards are usable |
| Guards.EntryIsGuard | rust/gptl-transport/src/guard.rs:173-190 | the entry relay is the saved descriptor of a usable guard that is listed, or a listed relay while too few guards are usable |
| Guards.UsableInNumbers | rust/gptl-transport/src/guard.rs:69-71 | the usable guards are those with fewer failures than allowed |
| Guards.EntryReachesEach | rust/gptl-transport/src/guard.rs:173-343 | every relay that may be chosen is, for some draw |
| Guards.NoEntryAfterRotationIff | rust/gptl-transport/src/guard.rs:173-343 | right after a rotation against the same list there is no entry relay, if and only if the list is empty, or no guard is demanded, all survivors have failed too often, and no fresh guard is added or may fail even once |
| Guards.GuardManager.Report | rust/gptl-transport/src/guard.rs:243-261 | the first guard of that nickname is reset or counts one failure, saturating |
| Guards.ReportInFields | rust/gptl-transport/src/guard.rs:243-261 | what a report does to each guard: the first of the nickname is reset and dated, or counts one more up to the cap; the others stay |
| Guards.NoGuardsLeft | rust/gptl-transport/src/guard.rs:303-313 | when rotation leaves no guard there is nothing a fresh selection could add |
| Guards.KeptIsSurvivors | rust/gptl-transport/src/guard.rs:197-211 | the survivors are exactly the unexpired listed guards, unchanged and in order |
| Guards.SurvivorsInNumbers | rust/gptl-transport/src/guard.rs:193-239 | the first guards after a rotation are exactly those selected less than the age limit ago whose key an available relay has; behind them are fresh entries of complete relays |
| Guards.RotationOutcome | rust/gptl-transport/src/guard.rs:193-239 | after a rotation: survivors first, then fresh eligible entries; keys distinct and listed; the count is max(s, min(num_guards, s + eligible)) |
| Guards.UnexpiredAfterRotation | rust/gptl-transport/src/guard.rs:85-239 | after a rotation every guard was selected less than the age limit ago, if and only if the limit is positive, or enough guards survive, or no other relay is eligible |
| Guards.ReportKeepsBookIff | rust/gptl-transport/src/guard.rs:243-261 | from right counts a report keeps all counts right, if and only if each guard of that nickname after the first has count zero at a success and the largest count at a failure |
| Guards.CountsAlwaysRightIff | rust/gptl-transport/src/guard.rs:74-82 | over any run with saves, reloads and unreadable files each failure count is always the saturated number of failures since the last success, if and only if no report is missed by a guard of its nickname |
| Guards.FailureCountsAreStreaks | rust/gptl-transport/src/guard.rs:74-82 | so with relay lists out of one directory of distinct keys and nicknames every count is always right |
| Guards.CountsFromStart | rust/gptl-transport/src/guard.rs:74-82 | the same equivalence over every run from a first start |
| Guards.RenamedGuardTakesReports | rust/gptl-transport/src/guard.rs:243-261 | a rename puts two guards under one nickname, and a failure reported to it is missed by the second |

## Left out

- Sockets, the async runtime, timeouts, channel back-pressure, files, JSON and TOML, logging.
- `handshake.rs`, `relay_node.rs`, `path.rs` and the routing `circuit/` module: keys and paths are inputs, and relays are the mirror ciphers with the Forward layout.
- Real cryptography: X25519, ML-KEM, HKDF, SHA-256, ChaCha20-Poly1305 and ed25519 are ideal or free; `kex.rs` and `aead.rs` are not modelled.
- Concurrent writers on one stream handle; a write is one step of the machine until its cells are queued.
- `wait_connected`, `close` and `destroy` of a circuit or stream, and padding traffic.
- UTF-8 and Unicode white space: strings are byte sequences, and trimming is of ASCII white space.
- Floating point: similarity is any relation, density an exact fraction, memory pressure an integer comparison; latency, geographic and hybrid scoring may pick any relay of the list. Of their scores only what makes a total undefined is modelled: candidates all without bandwidth, and a `measurable` flag per relay for a distance that is a number.
- `detect_same_subnet`, coordinated behaviour, reputation, stake and bandwidth measurement in `sybil_defense.rs`.
- `CircuitWindow`, `SniperDetector` and `PowGenerator`; that a circuit is verified before memory is reserved for it.
- The remaining registry calls (register, unregister, persistence, HTTP) and `RelayPool`; `report_success` and the setters of the selector.
- Overlapping calls of the failover manager: its calls run one at a time, and its event channel never fails.
- Guards.GuardManager.RotateIfExpired: takes the age limit as a signed duration, because the conversion from days can panic in the date library.
- `changes.rs`, `auto_setup.rs`, BGP and WebRTC protection, the relay binary, the command line and the benchmarks.
