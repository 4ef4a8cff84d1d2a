# A verified model of the ITCH matching engine and its UDP feed

This Dafny project models a limit order book engine for NASDAQ TotalView-ITCH 5.0 and the UDP
pipeline that can feed it, and proves that they do what they are for.

- **The matching core.** One arena of order nodes is shared by 65536 books. Live orders sit in doubly
  linked FIFO queues of arena indices; free slots are chained through the same `next` field. Each side
  of a book keeps 2048 price slots with a cached best slot, and a sorted vector for all other prices. An
  open-addressing hash map takes order references to arena slots. All of this is modelled in place, as
  classes and arrays. What it means is one small specification (`EngineSpec.dfy`): per side a list of
  orders, best price first and first come first served within a price, and a map from reference to side.
- **The feed.** A single-producer single-consumer ring, a lock-free stack of packet buffers, the
  sequence tracker of the receive loop, MoldUDP64 framing and the replay sender. The two threads are
  interleaved atomic steps: every load, link write, compare-and-swap, data write and store is a step of
  its own, so each side works on snapshots that may be stale, and a weak compare-and-swap may fail for no
  reason. What the network delivers is arbitrary.

`MatchingEngine.ProcessMessage` proves that the in-place engine simulates the specification message by
message. `MessageLaws.dfy` says what one message of the specification does in plain comparisons, with the
side letters, side numbers and constants written out, and the laws in `EngineLaws.dfy` and
`StreamLaws.dfy` hold of it over whole runs. The wire format is likewise stated byte by byte
(`MoldUdp64.LaidOut`).
`Pipelines.TurnKeeps` is the invariant of the concurrent pipeline; the laws in `PipelineLaws.dfy`,
`FeedLaws.dfy`, `SessionLaws.dfy`, `LosslessLaws.dfy`, `Starvation.dfy`, `UdpLaws.dfy`,
`CompleteRuns.dfy` and `ThreadLaws.dfy` follow from it for every interleaving. `UdpRun.dfy` joins the two halves:
`UdpRuns.RunReplayed` over a network that loses, repeats and reorders, `UdpRuns.RunComplete` when nothing
is lost.

Files, bottom up: `Words`, `Collections`; `FlatHashMap`; `BookSpec`, `OrderPool`, `Queues`, `LadderSide`,
`OrderBook`; `EngineSpec`, `MessageLaws`, `EngineLaws`, `StreamLaws`; `OrderIndex`, `MatchingEngine`; `MoldUdp64`,
`Replay`, `FileRun`; `SpscRing`, `PacketPool`, `FeedHandler`; `Pipeline` and the laws about it; `UdpRun`.

What the engine asks of a feed is `EngineSpec.Accepts`: an order that comes to rest has a reference that
is not live and not the reserved key, and the order map keeps a free slot. `EngineLaws.AcceptsExact` shows
that this is the weakest condition that keeps the engine sound. `StreamLaws.CleanAdmissible` gives a
condition on the messages alone that is enough, and that any loss of messages preserves; only results about
lossy networks ask for it.

## Findings

Where a comment in the source promises more than the code does, the code is modelled as it is.

- src/feed_handler.cpp:152-153 says gap detection will surface a packet lost to a full ring. It never
  does: the expected number has already moved past that packet. `FeedHandlers.FullRingInvisible` proves
  that two streams differing only in such losses end with equal trackers, but for the drop counter.
- src/engine_udp.cpp:40-42 says as many pool slots as ring slots are enough for the network thread never
  to run out of buffers. `Starvation.StarvesIff` shows that they are not: acquire can fail exactly when
  the ring has at least two slots and the pool has no more slots than the ring. The sizes in use
  (131072 and 65536) are safe.
- src/feed_handler.cpp:80-81 says that the throwaway receive of a network thread without a buffer still
  detects end-of-session and gap markers. It does not: that packet is never parsed.
  `PipelineLaws.ScratchBlind` shows that only its size counts, so an end marker that arrives then is lost;
  `Starvation.StarvesIff` says when this can happen.
- src/engine_udp.cpp:82-83 says that polling the stop flag lets the matching thread shut down cleanly if
  the producer dies. It does not: only the matching thread itself sets that flag, after its loop.
  `ThreadLaws.EndsIffTold` shows that once the network thread has ended the matching thread can end exactly
  if the sentinel was pushed, and `ThreadLaws.DiesSilently` is a run in which it was not.
- include/packet_pool.hpp:17-21 calls the compare-and-swap free list defensive in case more producers are
  added. `PacketPools.SafeIffOneAcquirer` shows that releasing threads may be added and acquiring threads
  may not: with two, a slot that is held can be handed out again.
- src/feed_handler.cpp:148 adds sequence numbers modulo 2^64. `FeedHandlers.AdvancesIffNoWrap` states
  exactly when an accepted packet leaves the expectation past itself; `FeedHandlers.WrapsToZero` is the
  packet that sends it back to zero.
- src/replay.cpp:133 stops at the first message that no packet can hold, and the session is still closed.
  `Replayer.BatchesCover` states exactly which messages are sent.
- include/spsc_ring.hpp:61 keeps one slot open, so a single-slot ring accepts nothing
  (`SpscRings.FullSeen`) and no session gets through it (`CompleteRuns.CompletesIff`).

## Model

| member | source | states |
|---|---|---|
| Words.MaskedIsAnd | include/flat_hash_map.hpp:20 | for a power of two, the bitwise and of the wrapped 64-bit value with capacity - 1 is the remainder by the capacity |
| FlatHashMaps.MaskedForms | include/flat_hash_map.hpp:20-52 | the slot after a slot and the cyclic distance between slots are the masked sum and the masked, wrapping difference |
| FlatHashMaps.FlatHashMap.Probe | include/flat_hash_map.hpp:17-21 | the walk terminates; it stops at the key if the key is present and at a free slot otherwise, with no free slot on the way |
| FlatHashMaps.FlatHashMap.Insert | include/flat_hash_map.hpp:16-22 | the map gains exactly this binding, or nothing at all for the reserved key, and every other key stays reachable |
| FlatHashMaps.FlatHashMap.Find | include/flat_hash_map.hpp:24-33 | agrees with the mathematical map, for present and absent keys |
| FlatHashMaps.FlatHashMap.CloseHole | include/flat_hash_map.hpp:44-59 | the scan of Algorithm R terminates, even when the hole is the only free slot, loses no entry and leaves no free slot between any key's home and its position, across wrap-around |
| FlatHashMaps.FlatHashMap.Erase | include/flat_hash_map.hpp:35-60 | the map is exactly the old one without the key, and the probe invariant holds again; a full table that has the key included |
| BookSpec.SweepAllots | src/orderbook.cpp:11-55 | each resting order receives exactly its price-time allotment: what is left of the incoming shares after all orders ahead of it, if its price crosses |
| BookSpec.SweepTakesFront | src/orderbook.cpp:39-49 | executions go down the priority list from the front, none past the limit, all complete except possibly the last; removed references are exactly the completely filled orders |
| BookSpec.SweepWithinLimit | src/orderbook.cpp:14-72 | no execution is past the limit: resting asks at or below a buy's price, resting bids at or above a sell's |
| BookSpec.SweepConserves | src/orderbook.cpp:11-63 | incoming shares are executed or left over, the other side loses exactly the executed shares, and beside a remainder the best price left is strictly past the limit |
| BookSpec.InsertPosSplits | src/orderbook.cpp:57-63 | the place of a resting order is behind every bid at or above its price (ask at or below) and ahead of every other |
| BookSpec.RestRanked | src/orderbook.cpp:57-63 | resting the remainder there keeps the list in price-time order |
| OrderPools.OrderPool.Allocate | include/order_pool.hpp:33-46 | reuses the most recently freed slot, grows only when none is free, and the free list stays a duplicate-free chain of exactly the free slots |
| OrderPools.OrderPool.FreeSlot | include/order_pool.hpp:50-53 | the slot becomes the head of the chain and no other slot changes |
| Queues.LinkChain | include/ladder_side.hpp:170-180 | appending at a price's tail leaves all queues of the side linked both ways in priority order, each live slot in exactly one of them |
| Queues.UnlinkChain | include/ladder_side.hpp:182-194 | unlinking any slot leaves the same of the remaining slots |
| Queues.UnlinkLevel | include/ladder_side.hpp:182-194 | the level's head and tail are exact afterwards, and no other price of the side is affected |
| Ladders.SlotPriceInverse | include/ladder_side.hpp:159-168 | price and slot maps are inverse to each other, so no slot that holds an order wraps in 32 bits |
| Ladders.LadderSide.Anchor | include/ladder_side.hpp:150-157 | the window starts half its width below the price, or at zero, rounded down to the tick; the price has a slot iff it is on the grid |
| Ladders.LadderSide.AdvanceBest | include/ladder_side.hpp:197-217 | the scan ends at the best populated slot, or at none if the ladder is empty |
| Ladders.LadderSide.BestLevel | include/ladder_side.hpp:89-113 | none iff nothing rests; otherwise the level whose head is the front of the whole side's priority list, ladder and overflow together |
| Ladders.LadderSide.Add | include/ladder_side.hpp:46-64 | the slot enters the priority list behind everything at least as well priced; all side invariants hold |
| Ladders.LadderSide.Remove | include/ladder_side.hpp:68-84 | exactly this slot leaves the priority list; cached best, sorted overflow and links stay exact |
| Ladders.LadderSide.RemoveEmptyBest | include/ladder_side.hpp:117-129 | after a level was drained in place, the cached best is exact again and no empty overflow level remains |
| OrderBooks.OrderBook.MatchAgainst | src/orderbook.cpp:11-55 | the nested loops terminate with the executions, removed references, remaining list and left-over shares of the specification's sweep, and every filled slot is freed |
| OrderBooks.OrderBook.HandleOrder | src/orderbook.cpp:134-144 | both sides' lists, executions and removed references are those of the specification; an invalid side is an error that changes nothing; no slot of another side is touched |
| OrderBooks.OrderBook.RemoveByIndex | src/orderbook.cpp:123-132 | exactly this order leaves its list, its slot is freed, and the other side is unchanged |
| OrderIndex.RelocatedIndex | src/matching_engine.cpp:91-99 | erasing the removed references and inserting the resting one keeps the order map exact: a reference is mapped to a slot iff that slot is live with that reference |
| OrderIndex.LiveExact | include/order_pool.hpp:33-53 | with an empty free list there are exactly as many live orders as arena slots |
| MatchingEngines.MatchingEngine.constructor | src/matching_engine.cpp:10-29 | 65536 empty books over one empty arena, and an empty order map of 8388608 slots |
| MatchingEngines.MatchingEngine.Locate | src/matching_engine.cpp:122-124 | finds a location iff the specification knows the reference, and that slot holds its order |
| MatchingEngines.MatchingEngine.ProcessMessage | src/matching_engine.cpp:68-172 | every message takes arena, ladders, overflow and order map to the specification's next state, with its executions, none past a limit, and removed references; the arena grows only to the number of live orders; an add is an error iff its letter is neither B nor S |
| EngineSpec.StepSound | src/matching_engine.cpp:68-172 | every accepted message keeps all lists ranked and funded, the index exact and all books uncrossed |
| EngineSpec.RunSound | src/matching_engine.cpp:203-237 | so does every admissible run |
| MessageLaws.BuyTrades | src/orderbook.cpp:11-63 | an add with letter B takes only from the front of side 2b + 1, within its limit and as far as it goes, and what is left joins side 2b unchanged but for its shares; no other list changes |
| MessageLaws.SellTrades | src/orderbook.cpp:66-121 | an add with letter S does the same with the sides exchanged |
| MessageLaws.OtherLetters | src/orderbook.cpp:137-143 | an add with any other letter changes nothing |
| MessageLaws.AddAccepted | src/matching_engine.cpp:91-99 | an add is accepted iff nothing of it rests, or its reference is not 2^64 - 1 and not live and fewer than 8388607 others are |
| MessageLaws.DeleteTakesOut | src/matching_engine.cpp:106-116 | a delete takes exactly its order out of its list and of the index; all other orders keep their places |
| MessageLaws.ReplaceIsDeleteAdd | src/matching_engine.cpp:135-167 | a replace is a delete of the original followed by an add to the same book and side with the new reference, shares and price |
| MessageLaws.StepExecutesFairly | src/orderbook.cpp:14-72 | whatever the message, execution i is against order i of the facing side, for no more than it has, at a price within the incoming order's limit |
| MessageLaws.RunExecutesFairly | src/matching_engine.cpp:203-237 | and so at every message of every admissible stream |
| EngineLaws.NeverCrossed | src/orderbook.cpp:11-16 | after any admissible stream every bid of a book is strictly below every ask of it |
| EngineLaws.AlwaysFunded | src/orderbook.cpp:42-63 | after any admissible stream every order resting anywhere has shares, has letter B on an even side and S on an odd one, and is what its reference finds |
| EngineLaws.AcceptsExact | src/matching_engine.cpp:76-168 | a message leads from a sound state to a sound one iff the engine accepts it, so the feed condition is the weakest |
| EngineLaws.StepConserves | src/matching_engine.cpp:76-168 | a message's submitted shares are matched twice, withdrawn, or added to what rests |
| EngineLaws.RunConserves | src/orderbook.cpp:18-63 | over any run, submitted equals twice matched plus withdrawn plus resting |
| EngineLaws.RunIsolated | src/matching_engine.cpp:87-88 | a book to which no message is addressed keeps contents and FIFO order over any run |
| EngineLaws.PartialKeepsQueue | src/matching_engine.cpp:129-133 | a partial execution or cancel changes one share count, and no position of any order on any side |
| StreamLaws.CleanAdmissible | src/matching_engine.cpp:91-99 | a stream that introduces each reference once, never the reserved one, and fewer than the map has slots, is acceptable throughout |
| StreamLaws.PartSound | src/matching_engine.cpp:68-172 | so is every subsequence of it, and every state it leads to is sound |
| MoldUdp64.ParseMoldHeader | include/moldudp64.hpp:47-59 | the word-by-word swap on a little-endian host reads the session from bytes 0-9, the number from bytes 10-17 and the count from bytes 18-19, high byte first |
| MoldUdp64.MoldMessageIterator.Next | include/moldudp64.hpp:71-82 | returns the next complete message and moves past it; returns none once no complete message is left |
| MoldUdp64.BuildMoldPacket | include/moldudp64.hpp:93-120 | writes the header byte by byte in that layout, then the framed messages, and leaves the rest of the buffer; returns zero exactly when the packet does not fit |
| MoldUdp64.EncodeBytes | include/moldudp64.hpp:93-120 | every encoded packet has that layout |
| MoldUdp64.FrameBytes | include/moldudp64.hpp:112-118 | a framed message is its length in two bytes, high byte first, and then its bytes |
| MoldUdp64.PacketRoundTrip | include/moldudp64.hpp:47-120 | parsing and iterating a built packet gives back session, number, count and messages |
| MoldUdp64.FramesTruncated | include/moldudp64.hpp:71-82 | a body cut anywhere gives exactly the messages that are still complete |
| MoldUdp64.FramesLongest | include/moldudp64.hpp:71-82 | no longer list of complete messages can be read from the front of any body |
| Replayer.TakeLongest | src/replay.cpp:122-131 | a batch ends only for want of messages, of batch slots or of room in the packet |
| Replayer.TakeFits | src/replay.cpp:122-131 | and it never overfills the packet |
| Replayer.NextBatch | src/replay.cpp:122-131 | the loop over the file collects exactly that batch and leaves the cursor behind it |
| Replayer.SlotsEnough | src/replay.cpp:103-131 | no batch outgrows the 256 batch slots if the limit is at most 256, or if no message is shorter than 6 bytes |
| Replayer.Replay | src/replay.cpp:98-177 | the packets sent are the encoded batches with consecutive numbers from 1, then the end-of-session marker |
| Replayer.WireBytes | src/replay.cpp:98-174 | each packet sent, byte by byte: session ORDBKSES1 and a zero, its number, its count or 0xFFFF at the end, and then its frames |
| Replayer.BatchesCover | src/replay.cpp:117-133 | the batches together are the file, in order, up to the first message too long for a packet |
| Replayer.PlanIsSession | src/replay.cpp:117-168 | each packet carries exactly the messages of the file that its numbers claim |
| FileRuns.RunFile | src/matching_engine.cpp:203-237 | walking the file leaves the engine at the fold of the specification over its messages; the arena grows to the most orders ever live at once, if that is more than it had |
| FileRuns.RunFromStart | src/matching_engine.cpp:174-237 | from program start the arena ends exactly as large as the most orders ever live at once |
| SpscRings.FullSeen | include/spsc_ring.hpp:57-63 | push gives up exactly if the ring is full when it loads the head |
| SpscRings.WriteSpares | include/spsc_ring.hpp:64 | the data write hits no cell still to be read |
| SpscRings.EveryRun | include/spsc_ring.hpp:57-80 | in every interleaving with stale snapshots, popped is a prefix of pushed, at most capacity - 1 are in flight and every unread cell is intact |
| PacketPools.CasInstallsSuccessor | include/packet_pool.hpp:47-57 | with one acquiring thread, a compare-and-swap that can succeed installs the true successor |
| PacketPools.RunSound | include/packet_pool.hpp:47-66 | with one acquiring thread and any number of releasing ones, in every interleaving the free list is a duplicate-free chain of exactly the slots nobody holds |
| PacketPools.SafeIffOneAcquirer | include/packet_pool.hpp:47-66 | over all interleavings no held slot is offered again, iff at most one thread acquires |
| FeedHandlers.FeedHandler.ReceiveAll | src/feed_handler.cpp:77-157 | the loop's counters, expectation and outcomes are those of the specification over the stream, up to the end marker |
| FeedHandlers.Accounting | src/feed_handler.cpp:105-156 | received packets are pushed, dropped, duplicates, heartbeats or the end marker, each counted once |
| FeedHandlers.TakenIff | src/feed_handler.cpp:114-148 | count 0xFFFF ends the session, count 0 is a heartbeat, and a data packet is taken iff it is the first packet or starts at or past the expected number |
| FeedHandlers.Resyncs | src/feed_handler.cpp:142-148 | a packet past the expected number counts one gap, and tracking goes on behind it |
| FeedHandlers.AcceptsRange | src/feed_handler.cpp:114-148 | over any stream, a data packet adds its range iff it starts at or past the end of the last range taken before it |
| FeedHandlers.BytesExact | src/feed_handler.cpp:86-107 | the byte counter is the sum of the sizes of all datagrams but the short ones |
| FeedHandlers.RangesAscend | src/feed_handler.cpp:136-148 | accepted packets cover strictly ascending, disjoint sequence ranges |
| FeedHandlers.GapsExact | src/feed_handler.cpp:142-147 | the gap counter counts exactly the accepted packets that start past the previous accepted end |
| FeedHandlers.NeverBack | src/feed_handler.cpp:136-148 | the expected number never falls below its first value |
| FeedHandlers.FullRingInvisible | src/feed_handler.cpp:148-156 | packets lost to a full ring show in the drop counter and nowhere else |
| FeedHandlers.AdvancesIffNoWrap | src/feed_handler.cpp:148 | an accepted packet leaves the expectation past itself iff its numbering stays within 64 bits |
| FeedHandlers.WrapsToZero | src/feed_handler.cpp:136-148 | one message numbered 2^64 - 1 is accepted and sends the expectation back to zero |
| Pipelines.TurnKeeps | src/feed_handler.cpp:77-157 | every turn of either thread keeps the whole pipeline invariant |
| PipelineLaws.EverySlotOnce | src/engine_udp.cpp:85-120 | in every state of every run a packet slot is in exactly one place: free, with the network thread, in the ring, or with the matcher |
| PipelineLaws.BytesStable | src/engine_udp.cpp:100-119 | no turn changes the bytes of the slot the matcher reads |
| PipelineLaws.ScratchBlind | src/feed_handler.cpp:79-90 | a packet received without a buffer changes three counters and nothing else, whatever it holds |
| PipelineLaws.ScratchIdle | src/feed_handler.cpp:83-84 | a receive without a buffer that returns nothing changes nothing |
| PipelineLaws.NeverStarved | src/engine_udp.cpp:40-47 | with more pool slots than ring slots, acquire never comes back empty-handed |
| Starvation.StarvesIff | src/engine_udp.cpp:40-47 | acquire can fail in some run iff the ring has at least two slots and the pool has no more slots than the ring |
| FeedLaws.PipelineAccounting | src/feed_handler.cpp:77-157 | in every run of the pipeline the packets pushed are exactly the arrivals taken, in order; received is pushed plus dropped plus duplicates plus heartbeats plus end markers, bytes add up, and unless numbers wrap every data packet is taken iff it starts past all taken before, ranges ascend and gaps are exact |
| SessionLaws.PoppedInOrder | src/engine_udp.cpp:80-121 | over any network the messages taken from the ring are session messages at increasing positions |
| LosslessLaws.ProcessedAll | src/engine_udp.cpp:80-121 | when first copies arrive in order and nothing is dropped, a run that ends has processed exactly the session |
| UdpLaws.FileSubsequence | src/replay.cpp:117-168 | over any lossy, repeating, reordering network and any interleaving, what the engine is given is a subsequence of the file, in order, each message at most once |
| UdpLaws.UdpEqualsFile | src/engine_udp.cpp:80-121 | with every packet delivered, first copies in order, and none dropped, a run that ends has processed exactly the file |
| CompleteRuns.CompletesIff | src/engine_udp.cpp:80-121 | some run delivers the whole file without loss and ends, iff the ring has at least two slots |
| ThreadLaws.ReceiveLeads | src/feed_handler.cpp:92-156 | after a receive, in every interleaving, the packet goes to the ring or its slot is given back, and then the thread loops (interrupt, short, heartbeat, duplicate), sends the sentinel (end marker) or ends (failure) |
| ThreadLaws.ReleaseCompletes | include/packet_pool.hpp:59-66 | three turns that nothing disturbs complete such a release |
| ThreadLaws.EndsWithReason | src/feed_handler.cpp:95-130 | the matching thread ends only if an end marker has arrived, the network thread only if one has or the socket failed |
| ThreadLaws.EndsIffTold | src/engine_udp.cpp:80-123 | once the network thread has ended, the matching thread can end iff the sentinel was pushed |
| ThreadLaws.DiesSilently | src/feed_handler.cpp:95-99 | a socket failure ends the network thread without the sentinel |
| UdpRuns.RunPackets | src/engine_udp.cpp:100-119 | reading popped packets into an engine leaves it at the fold of the specification over their messages |
| UdpRuns.RunUdp | src/engine_udp.cpp:80-121 | any run of the two threads leaves any engine that accepts what reaches it at the fold of the specification over it, with the arena that file mode would have |
| UdpRuns.RunReplayed | src/engine_udp.cpp:80-121 | over any network a new engine stays valid and sound and reaches the state of a subsequence of the file, with an arena as large as that subsequence's most live orders |
| UdpRuns.RunComplete | src/engine_udp.cpp:80-121 | a complete run leaves any engine that accepts the file where walking the file would, arena included |
| UdpRuns.CompleteFromStart | src/engine_udp.cpp:80-121 | from program start a complete run ends with the state and the arena of file mode from program start |

## Left out

- src/feed_handler_xdp.cpp: AF_XDP plumbing and header filtering; its sequence tracking repeats src/feed_handler.cpp.
- Sockets, multicast, `recv`, `sendto`, `mmap`, `madvise`, thread pinning: received data is an arbitrary input.
- src/itch.cpp: fixed-offset field extraction, which would add only easy members; the engine takes a message datatype and `decode` is any function from bytes to messages.
- TSC timing, latency vectors, progress output, prefetching, argument parsing, pacing: no effect on book state.
- Weak memory: steps are interleaved with stale local snapshots, not run on a hardware memory model.
- Session identity: the source records the session bytes and never compares them.
- Filler fields of execution records: only reference and executed shares are modelled.
- A failing `sendto`: the sender would stop early, which the receiving side sees as loss.
- The iterator reads a packet's messages until none is left and ignores the header's count, as the source does; that count and messages agree is proved for replayed packets, not assumed of others.
- handleBuyOrder and handleSellOrder: one method with the side as a parameter, since they differ only in direction.
- RunUdp: the engine's calls come after the turns of the two threads instead of in between; the engine and the pipeline share no state.
- Arena indices: an arena of 2^32 - 1 nodes is out of reach, since the order map bounds live orders by its 8388608 slots.
