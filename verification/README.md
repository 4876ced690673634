# pcapracer: a verified model of the extractor's core

pcapracer turns a packet capture into rows. The parts modelled here are the ones whose answer
depends on a whole run, not on one packet:

- **Reassembly.** `FragTable` stitches IP fragments together; `StreamTable` keeps the contiguous
  prefix of each direction of a TCP conversation. Modules `Fragments`, `FragmentRuns`, `Streams`,
  `StreamRuns`, `StreamLosses`.
- **Flows.** `FlowTable` keeps one row per conversation, and merges. Modules `Addresses`, `Flows`,
  `FlowRuns`, `FlowTableRuns`.
- **The pipeline.** The serial engine, the run loop with its reused buffer, the parallel map, the
  panic-hook guard, and the bounded queue of the Python iterator. Modules `Pipeline`, `RunLoop`,
  `EngineRuns`, `Extraction`, `PanicHook`, `BatchQueue`.
- **Recursive decoders.** DNS names and records, the BER reader and its searches. Modules `DnsNames`,
  `DnsRecords`, `Ber`, `BerSearch`, `BerValues`.
- **Nested dissection.** Link, network, transport and tunnel layers over one shrinking cursor.
  Modules `Cursor`, `IpHeaders`, `DissectFields`, `DissectState`, `DissectSpec`, `Dissection`,
  `DissectFacts`, `DissectInduction`, `DissectRuns`, `DissectMarks`, `DissectSlices`, `DissectPayload`,
  `PayloadRange`.

The tables, the engine, the cursor and the dissection context are classes whose methods update them
in place, as the program does. Each method is proved to do what a function on values says (`Offer`,
`Observed`, `AbsorbOne`, `LinkOf` and so on), and the properties are proved of those functions over
every run. The hook guard and the queue are state machines over their steps.

In dissection the functions of `DissectSpec` follow the source case by case; what they are worth is
said by `DissectRuns`, `DissectSlices`, `DissectMarks` and `DissectPayload`. Those theorems are proved
once for all link types with an induction principle (`DissectInduction.HoldsAtTheEnd`): a fact that
every update of the columns keeps holds when a frame is done. The facts are passed as function values,
which also keeps their definitions away from the solver during the induction.

`dafny verify dfyconfig.toml` checks everything.

## Model

| member | source | states |
|---|---|---|
| Fragments.FragTable.Push | rust/src/reasm.rs:75-135 | One fragment in place: the table, its pieces, tallies and counters become those of the specification, which keeps fragments in arrival order and says declaratively who wins each byte. |
| Fragments.Stitch | rust/src/reasm.rs:104-128 | One pass over the sorted pieces finds a hole or supplies every byte from the first sorted piece that covers it. |
| Fragments.WinnerIsFirstInSortedOrder | rust/src/reasm.rs:106-123 | The first covering piece of the stable sort is the one of lowest offset, earliest arrival on a tie. |
| FragmentRuns.OverlapResolution | rust/src/reasm.rs:97-134 | For arbitrary, even conflicting, fragments: a datagram comes out exactly when its length is known and there is no hole below it or below any fragment; its length is that of the latest fragment without MF, and each byte is its winner's. |
| FragmentRuns.FirstCopyWinsIff | README.md:103-104 | A completed layout resolves first-copy-wins for all contents exactly when no later fragment that starts strictly lower covers a byte already supplied. |
| FragmentRuns.FirstCopyCanLose | rust/src/reasm.rs:106-123 | Two fragments at offsets an IP header can carry, whose second copy overwrites a byte of the first. |
| FragmentRuns.DeliveredExactlyOnCompletion | rust/src/reasm.rs:75-135 | If the fragments of a key are slices of one datagram, then in any order, with any repeats and overlaps, interleaved with any traffic, within the byte budget of a set, the completing push returns the datagram and forgets the key, and earlier pushes return nothing; a set must be free only when the first of them arrives. |
| FragmentRuns.OrderIrrelevant | rust/src/reasm.rs:104-134 | Two histories with the same slices stand for the same datagram. |
| FragmentRuns.Conservation | rust/src/reasm.rs:82-134 | In every reachable state the set and byte budgets hold, begun = completed + abandoned + pending, and dropped = abandoned + refused. |
| FragmentRuns.IncompleteAllCountedIff | README.md:104-106 | Every set begun and not completed is counted as dropped exactly when none is still pending. |
| FragmentRuns.PendingIsNeverCounted | rust/src/pipeline.rs:433-434 | One fragment whose successor never comes is neither completed nor counted. |
| Streams.StreamTable.Push | rust/src/reasm.rs:206-272 | One segment in place: buffers, held segments, flags and counters become those of the specification, and so does what is returned. |
| Streams.DrainPending | rust/src/reasm.rs:245-256 | The drain loop joins held segments that start at the end of the buffer until none does. |
| StreamRuns.PrefixNeverChanges | rust/src/reasm.rs:222-264 | Over a whole run, conflicting segments included, a stream's bytes are only added to. |
| StreamRuns.PrefixOfTheTruth | rust/src/reasm.rs:217-264 | If every segment is a slice of one stream, or from before its base, the buffer is a prefix of that stream, wherever the sequence number wraps. |
| StreamRuns.ReceiveIsAccepted | rust/src/reasm.rs:217-264 | Refinement: on a stream that fits the cap, 32-bit arithmetic computes what unbounded offsets would. |
| StreamRuns.LongestRunIff | rust/src/reasm.rs:244-256 | A result not flagged partial is the longest contiguous run of what arrived exactly when no held segment straddles the end of the buffer. |
| StreamRuns.LaminarIsLongestRun | rust/src/reasm.rs:217-256 | If a segment that starts within another always ends within it, nothing straddles and the result is the longest run. |
| StreamRuns.FewAheadDeliver | rust/src/reasm.rs:234-256 | Under that condition, if at no time more than 64 of the segments that arrived ahead of a gap are outstanding, nothing is flagged and the longest run is delivered, however long the reordering goes on. |
| StreamRuns.ExactlyUpToFirstMissing | rust/src/reasm.rs:217-256 | For a fixed segmentation in any order with repeats, a result not flagged partial is the stream up to the first missing segment. |
| StreamRuns.FewAheadReachFirstMissing | rust/src/reasm.rs:217-256 | So it is, and nothing is flagged, with at most 64 outstanding at once. |
| StreamRuns.TableDelivers | rust/src/reasm.rs:206-272 | The same for each entry of a table shared with any other streams. |
| StreamRuns.FewSegmentsAreNeverFlagged | rust/src/reasm.rs:234-242 | With at most 64 segments after the first, whatever their overlaps, nothing is flagged. |
| StreamRuns.StraddlerIsNeverJoined | rust/src/reasm.rs:249-250 | Three segments that cover eight bytes, of which six come out. |
| StreamRuns.TableProjects | rust/src/reasm.rs:206-272 | Streams do not disturb one another: an entry is the fold of its own segments, and a key without one was shut out by a full table. |
| StreamRuns.CapsHold | rust/src/reasm.rs:210-264 | In every reachable state the stream, byte and held-segment caps hold. |
| StreamLosses.EveryLossCountedIff | README.md:96-97 | Every segment a full table turned away is counted; every stream that dropped something at a limit is exactly when each of them was cut at the cap before its held list ever overflowed. |
| StreamLosses.EachDropCountedIff | rust/src/reasm.rs:234-264 | Every drop is counted when it happens exactly when no held list overflows and nothing arrives past the cap of a stream not yet counted. |
| StreamLosses.CutsAreCounted | rust/src/reasm.rs:258-264 | In particular all are counted when whatever drops something is cut at the cap. |
| StreamLosses.GapLosesTheRest | rust/src/reasm.rs:234 | A segment past the cap: ignored, not flagged, not counted. |
| StreamLosses.FlaggedAccounting | rust/src/reasm.rs:235-264 | The counter equals the number of streams flagged partial exactly when no held list of an unflagged stream overflowed. |
| StreamLosses.OverflowIsNotCounted | rust/src/reasm.rs:235-241 | Sixty-five segments ahead of a gap: the stream is flagged and the counter is zero. |
| Addresses.KeyIdentifiesConversation | rust/src/dissect/mod.rs:37-56 | Two tuples have one key exactly when they are equal or reversed; normalising is idempotent and agrees with `is_ordered`. |
| Addresses.CommunityId | rust/src/fingerprint.rs:237-275 | What is fed to the hash piece by piece is the preimage. |
| Addresses.PreimageIdentifiesConversation | rust/src/fingerprint.rs:237-292 | Two preimages coincide exactly for one seed and one conversation, told apart by ports only where a protocol has them. |
| Flows.FlowTable.Observe | rust/src/flow.rs:149-271 | One packet in place: rows, ids, counters and what is written back on the packet. |
| Flows.FlowTable.Merge | rust/src/flow.rs:277-315 | In whatever order the other table's rows are taken, each is joined or adopted under a new id. |
| FlowRuns.SummaryMeans | rust/src/flow.rs:205-257 | Folding packets one by one gives exactly the declarative figures of the trace: counts, sums, flag unions, intervals, earliest details. |
| FlowRuns.FirstSomeIsEarliest | rust/src/flow.rs:334-346 | A detail is that of the earliest packet that carried one. |
| FlowTableRuns.RefinesTrace | rust/src/flow.rs:149-271 | After any trace the rows are the first `max_flows` conversations, numbered in order of first appearance, each summarising its own packets; the rest is tallied. |
| FlowTableRuns.RunIsNumbered | rust/src/flow.rs:149-218 | Ids never repeat, so the test against the next id recognises exactly the row just inserted. |
| FlowTableRuns.EveryPacketCounted | rust/src/flow.rs:149-271 | The packets of all rows and the evicted ones are the packets observed. |
| FlowTableRuns.MergeIsConcatenation | rust/src/flow.rs:277-315 | For every split of a trace, merging gives the rows, figures and states of observing it all in one table. |
| FlowTableRuns.MergedRowsIff | rust/src/flow.rs:277-315 | With room for each half, merged and concatenated have the same rows exactly when `max_flows` has room for both. |
| FlowTableRuns.MergedServiceIff | rust/src/flow.rs:259-265 | Their services agree exactly when the first half's is absent, specific, or nothing else came. |
| FlowTableRuns.MergeLosesTheService | rust/src/flow.rs:306-312 | A handshake in one table and TLS in the other: merged "tcp", observed "tls". |
| FlowTableRuns.StateNeverFallsBack | rust/src/flow.rs:88-108 | A conversation's state never moves down the order partial to reset. |
| FlowTableRuns.EstablishedIff | rust/src/flow.rs:32-33 | Without a FIN or a reset the state is established exactly when a bare SYN came from the lower endpoint of the canonical tuple and a SYN with ACK from the higher. |
| FlowTableRuns.EstablishedIffLowerOpened | rust/src/flow.rs:230-235 | So a clean handshake reads established exactly when the lower endpoint opened it, and partial otherwise. |
| FlowTableRuns.HandshakeStaysPartial | rust/src/flow.rs:230-235 | A SYN from the higher endpoint and its answer, after which the row says partial. |
| FlowTableRuns.SortedRows | rust/src/flow.rs:319-323 | The rows in ascending first-seen order, whatever order the hash map yields them in. |
| FlowTableRuns.OrderIsUnique | rust/src/flow.rs:319-323 | Only one sequence of the same rows is in that order. |
| Pipeline.Owned.Fill | rust/src/pipeline.rs:117-128 | Nothing of a reused slot's earlier contents survives. |
| Pipeline.DissectChunk | rust/src/pipeline.rs:516-523 | In whatever order the slots are filled, the results are those of the records in order. |
| Pipeline.Engine.Absorb | rust/src/pipeline.rs:274-321 | A dissected chunk moves engine and builder by one sequential fold. |
| Pipeline.Engine.ReassembleAndDispatch | rust/src/pipeline.rs:324-384 | A TCP segment goes through reassembly and what comes out is dissected onto the packet. |
| RunLoop.Run | rust/src/pipeline.rs:443-514 | The batches handed out are the rows of one sequential pass cut every max(1, batch size), up to the first that is refused; so are statistics and flows. |
| RunLoop.BatchesMean | rust/src/pipeline.rs:474-511 | No row is lost, repeated or moved; no batch is empty; all but the last are full. |
| EngineRuns.RunTwice | rust/src/pipeline.rs:761-790 | Two runs of one capture with any batch sizes and thread counts hand out the same rows, and end with the same statistics and flows. |
| EngineRuns.BatchSizeAndThreadsDoNotMatter | README.md:117-119 | The sequential pass does not depend on either, and any two ways of cutting it hold the same rows. |
| EngineRuns.RowsAreNumbered | rust/src/pipeline.rs:275-280 | Packet ids are 0 to n - 1. |
| EngineRuns.FragmentTableIsRun | rust/src/pipeline.rs:296-309 | The engine's fragment table is a run over the fragments it was offered, so every theorem on runs holds of it. |
| EngineRuns.StreamTableIsRun | rust/src/pipeline.rs:324-353 | The same for streams. |
| EngineRuns.FlowTableIsRun | rust/src/pipeline.rs:311-315 | The same for flows. |
| EngineRuns.RedissectedOnCompletion | rust/src/pipeline.rs:296-309 | In any capture, the record that completes the slices of a datagram is dissected anew with it, and one that does not is left as it was. |
| Extraction.DatagramIsRead | rust/src/pipeline.rs:870-935 | The same from the octets: if the frames that carry parts of a datagram are marked right, the frame that completes it is dissected anew with exactly that datagram. |
| EngineRuns.CapsHoldThroughout | rust/src/pipeline.rs:274-321 | The budgets of both tables hold after every record. |
| EngineRuns.ReportedDropsIff | rust/src/pipeline.rs:428-439 | Reported drops and completions account for every datagram begun or refused exactly when none is pending at the end. |
| EngineRuns.RowsAgreeWithFlows | rust/src/flow.rs:268-271 | Grouping the packet rows by flow id gives back the counters of the flow rows. |
| EngineRuns.EveryPacketAccounted | rust/src/pipeline.rs:311-319 | Packets = flow packets + evicted + packets without a tuple, and the last two are the untagged rows. |
| EngineRuns.ReportedInterval | rust/src/pipeline.rs:428-439 | The reported interval spans the non-zero timestamps, unless the only ones are the marker value. |
| PanicHook.OriginalRestoredIff | rust/src/pipeline.rs:530-556 | In every interleaving, when no guard operation is under way: silent while guards are held; else the original hook is back exactly when no thread took the current hook while a last drop still had one to put back. |
| PanicHook.QuietWindowSuffices | rust/src/pipeline.rs:536-556 | Keeping increments out of the window between decrement and restore is enough. |
| PanicHook.TheOriginalCanBeLost | rust/src/pipeline.rs:536-556 | Fourteen steps of two threads after which no guard is held and the hook is the silent one. |
| BatchQueue.OrderedAndComplete | python/pcapracer/api.py:193-232 | In every interleaving, yielded, queued and in hand are the produced batches in order, the queue is never over capacity, and a consumer that stays gets all of them and the real end. |
| BatchQueue.AlwaysProgress | python/pcapracer/api.py:193-232 | Until the consumer has finished some step other than a time-out is possible, and each leaves less to do. |
| BatchQueue.AbandonedWorkerEndsIff | python/pcapracer/api.py:190-217 | After abandonment the worker ends exactly when the queue has room for what it still puts without a time-out. |
| BatchQueue.OnlyTheWorkerMoves | python/pcapracer/api.py:199-217 | Once the consumer is gone only the worker's one next action is possible, so the run above is every run. |
| BatchQueue.AnAbandonedWorkerCanBlock | python/pcapracer/api.py:210-217 | A queue of one, two batches, and a worker blocked for good. |
| BatchQueue.BufferedBound | python/pcapracer/api.py:193-208 | At most one batch more than the queue takes is held, and exactly when a full queue meets a batch in hand. |
| BatchQueue.MoreThanAskedIff | python/pcapracer/api.py:189-193 | Exactly when more than `queue_size` batches are held, for every size, zero and below included. |
| BatchQueue.OneMoreThanTheQueueIsHeld | python/pcapracer/api.py:193-208 | Every extraction with more batches than the queue takes can reach that. |
| DnsNames.ReadName | rust/src/dissect/app/dns.rs:67-132 | The loop over labels and pointers returns what the recursive reading of the message says. |
| DnsNames.DecodesIffWalk | rust/src/dissect/app/dns.rs:67-132 | A name decodes exactly when some walk of labels and pointers reaches a root within the limits; a cycle has none. |
| DnsNames.EndsPastItsStart | rust/src/dissect/app/dns.rs:67-132 | Whatever the bytes, the offset returned is past the start and within the message. |
| DnsNames.CompressedIsExpanded | rust/src/dissect/app/dns.rs:67-132 | A compressed name and its expanded form decode alike. |
| DnsNames.PlainNamesRoundTrip | rust/src/dissect/app/dns.rs:67-132 | Printable dot-free labels encoded anywhere read back, and the offset lands after them. |
| DnsNames.NamesTellLabelsApart | rust/src/dissect/app/dns.rs:67-132 | Different such lists have different names. |
| DnsRecords.ParseQuestions | rust/src/dissect/app/dns.rs:180-200 | The longest chain of well-formed questions, and the failure of the first malformed one. |
| DnsRecords.QuestionsAdvance | rust/src/dissect/app/dns.rs:180-200 | Questions follow one another without overlap inside the message. |
| DnsRecords.ParseRecords | rust/src/dissect/app/dns.rs:202-300 | The longest chain of well-formed records within the caps. |
| DnsRecords.ChainAdvances | rust/src/dissect/app/dns.rs:202-300 | Records follow one another without overlap inside the message. |
| DnsRecords.WrittenReads | rust/src/dissect/app/dns.rs:202-300 | A written record, anywhere in a message, reads back. |
| Ber.ReadIn | rust/src/dissect/app/ber.rs:104-152 | Reading a TLV takes exactly it off the cursor, or fails as the octets say. |
| Ber.TlvRoundTrip | rust/src/dissect/app/ber.rs:104-152 | Every class and form, low tags, every legal length of up to four octets: the TLV comes back and ends where its encoding does. |
| BerSearch.Collect | rust/src/dissect/app/ber.rs:185-205 | What is appended is the first matches of the depth-bounded pre-order of the TLV forest, as many as the limit leaves room for. |
| BerSearch.ForestIsWithin | rust/src/dissect/app/ber.rs:185-205 | Every TLV of the forest is a part of the input. |
| BerSearch.FindAfterOid | rust/src/dissect/app/ber.rs:158-181 | The second of the first sibling pair led by the identifier, depth first. |
| BerValues.AsI64 | rust/src/dissect/app/ber.rs:47-57 | The shifting loop gives the two's-complement value and never loses a bit. |
| BerValues.IntegerRoundTrip | rust/src/dissect/app/ber.rs:47-57 | Every integer and every width that holds it come back. |
| BerValues.AsOid | rust/src/dissect/app/ber.rs:75-100 | The accumulating loop gives the arcs of the recursive reading, wrapped at 64 bits. |
| BerValues.OidIsRead | rust/src/dissect/app/ber.rs:75-100 | An identifier is read exactly when it is not empty and its last octet ends a sub-identifier. |
| BerValues.OidRoundTripIff | rust/src/dissect/app/ber.rs:75-100 | Exactly the identifiers whose first sub-identifier is below 120 and whose other arcs fit in 64 bits come back. |
| Cursor.Cur.Take | rust/src/bytes.rs:54-69 | Taking moves the cursor by what it returns, or fails and says so. |
| IpHeaders.ReadV4 | rust/src/dissect/l3.rs:56-90 | The fixed IPv4 header read field by field is the parse of the octets. |
| IpHeaders.LongerChain | rust/src/dissect/l3.rs:141-187 | An extension chain that ends well ends the same whatever follows. |
| IpHeaders.ReadExtension | rust/src/dissect/l3.rs:151-185 | One extension header off the cursor, its fragment fields included. |
| DissectFields.ReadLabels | rust/src/dissect/l2.rs:133-154 | The MPLS loop stops after the first label with its bottom-of-stack bit set. |
| DissectFields.ReadGtpExtensions | rust/src/dissect/tunnel.rs:123-164 | The extension loop stops where a chain of at most eight ends, or fails as the chain does. |
| DissectFields.ReadL2tp | rust/src/dissect/tunnel.rs:166-198 | Where an L2TP header with its optional parts ends and which PPP protocol follows. |
| DissectFields.ReadTeredoIndicators | rust/src/dissect/tunnel.rs:200-226 | The indicator loop stops at the first octets that are none. |
| Dissection.DissectFrame | rust/src/dissect/mod.rs:122-126 | Dissecting a frame in place ends with the columns and result of `LinkOf`, on every frame and link type; it always ends. |
| Dissection.Ctx.Enter | rust/src/dissect/tunnel.rs:13-24 | Entering a tunnel refuses past the cap and moves the addressing out once. |
| Dissection.Ipv4 | rust/src/dissect/l3.rs:56-115 | An IPv4 header, its options and the clamp to its total length. |
| Dissection.WalkExtensions | rust/src/dissect/l3.rs:136-187 | The guarded loop over extension headers leaves the columns and cursor as the walk of the octets says. |
| Dissection.AfterIp | rust/src/dissect/l3.rs:198-232 | The fragment mark is made from the columns; a later fragment goes no further. |
| Dissection.Udp | rust/src/dissect/l4.rs:163-194 | A UDP header and the clamp to its length. |
| Dissection.TryUdpTunnel | rust/src/dissect/tunnel.rs:80-89 | Which tunnel a pair of ports stands for, tried before the application. |
| DissectInduction.HoldsAtTheEnd | rust/src/dissect/mod.rs:122-126 | Induction: what every update of the columns keeps holds when a frame of any link type is done. |
| DissectRuns.EveryFrameIsTold | rust/src/dissect/mod.rs:122-126 | On every frame and link type, wherever dissection stops: depth counts the tunnels, the outer columns, the tuple and the fragment mark are those of the headers met, each header is what its octets say, and the payload ends where the length fields let it. |
| DissectRuns.OuterColumnsAreOutermost | rust/src/dissect/tunnel.rs:13-24 | Tunnel layers equal depth, at most 8; from the first tunnel on the outer columns hold the outermost IP header's addresses. |
| DissectRuns.HeadersAreOctets | rust/src/dissect/l3.rs:56-115 | Each IP header met is what its octets say, and its payload ends where the enclosing length fields let it. |
| DissectRuns.TupleIsLastDispatched | rust/src/dissect/l3.rs:237-286 | The tuple is that of the innermost header whose payload starts with a transport header. |
| DissectRuns.LostIsUnwalkable | rust/src/dissect/l3.rs:141-187 | What ended dissection, if it was an IPv6 header, is one whose extensions cannot be walked. |
| DissectSlices.MarkIsSliceIff | rust/src/dissect/l3.rs:198-222 | Over any headers met: the mark is the slice of the last that is a fragment exactly when that one is cut right and no later one claims the frame. |
| DissectSlices.FrameMarkIsSliceIff | rust/src/dissect/l3.rs:56-222 | On every frame of every link type the mark is the slice that RFC 791 or section 4.5 of RFC 8200 reads off its innermost fragment, in place, exactly when no fragment was lost to its extensions, that fragment is cut right (IPv6: no extension after the first fragment header, nothing in the window after the packet; IPv4: a total length above the header's, or nothing after the header), and no header inside it claims the frame. |
| DissectMarks.InnerPacketTakesTheMark | rust/src/dissect/l3.rs:209-222 | A first IPv4 fragment that carries an IPv6 packet is marked as that packet. |
| DissectMarks.MarkOfFirst | rust/src/dissect/l3.rs:153-176 | A first fragment that starts with destination options: its mark lacks them. |
| DissectMarks.MarkOfLast | rust/src/dissect/l3.rs:153-176 | The last fragment of the same datagram: its data is taken for a header and it gets another key. |
| DissectMarks.SecondHeaderTakesTheMark | rust/src/dissect/l3.rs:165-176 | A fragment header inside a fragment's data overrules the packet's own key and offset. |
| DissectMarks.FragmentIsLost | rust/src/dissect/l3.rs:160-162 | The walk fails in a fragment's data, and it is not marked at all. |
| DissectPayload.RangeIsPayloadIff | rust/src/pipeline.rs:230-242 | On every frame the range is where the payload is exactly when no IPv4 or UDP length on the way ends before the frame, within what 16 bits can say. |
| DissectPayload.CapturedRangeIsPayloadIff | rust/src/pipeline.rs:230-242 | In a frame of at most 65535 octets with a payload, only such a length field can lead the pipeline astray. |
| DissectPayload.PayloadEndsAsSaidIff | rust/src/dissect/l3.rs:103-114 | An IPv4 payload ends where RFC 791 says exactly when the total length exceeds the header's or nothing follows the header. |
| DissectPayload.PaddingIsTakenForTcp | rust/src/dissect/l3.rs:105-114 | A packet that is all header: its padding is dissected as a TCP segment. |
| DissectPayload.PaddingIsTakenForPayload | rust/src/dissect/l3.rs:106-112 | A short segment in a frame padded to 60 octets: the range points at the padding. |

## Findings

Where the code does less than its documentation or comments say, the code is modelled as it is. The
member named first gives the exact condition, the second an input.

- "Overlapping fragments resolve first-copy-wins" (README.md:103-104): the lowest offset wins, arrival
  only breaks ties. `FragmentRuns.FirstCopyWinsIff`, `FragmentRuns.FirstCopyCanLose`.
- "A datagram with a missing fragment is dropped and counted" (README.md:104-106): not while it is
  pending, and pending sets are never counted at the end. `FragmentRuns.IncompleteAllCountedIff`,
  `EngineRuns.ReportedDropsIff`; `FragmentRuns.PendingIsNeverCounted`.
- A held TCP segment that straddles the new end of the buffer is never joined
  (rust/src/reasm.rs:249-250). `StreamRuns.LongestRunIff`, and on arrivals alone
  `StreamRuns.LaminarIsLongestRun`; `StreamRuns.StraddlerIsNeverJoined`.
- "Anything dropped at those limits is counted" (README.md:96-97): not what arrives past the byte cap
  ahead of a gap, which is neither flagged nor counted, and not what an overflow of the held list drops.
  `StreamLosses.EveryLossCountedIff`, `StreamLosses.EachDropCountedIff`; `StreamLosses.GapLosesTheRest`,
  `StreamLosses.OverflowIsNotCounted`.
- "Established: SYN and SYN-ACK seen" (rust/src/flow.rs:32-33): only if the lower endpoint opened.
  `FlowTableRuns.EstablishedIff`; `FlowTableRuns.HandshakeStaysPartial`.
- `merge` neither upgrades a service nor looks at `max_flows`. `FlowTableRuns.MergedServiceIff`,
  `FlowTableRuns.MergedRowsIff`; `FlowTableRuns.MergeLosesTheService`.
- `tcp_payload_range` takes the end of the frame for the end of the payload.
  `DissectPayload.RangeIsPayloadIff`; `DissectPayload.PaddingIsTakenForPayload`.
- "At most `queue_size` batches are held" (python/pcapracer/api.py:189-190): one more is.
  `BatchQueue.MoreThanAskedIff`; `BatchQueue.OneMoreThanTheQueueIsHeld`.
- "Abandoning the iterator early stops the worker" (python/pcapracer/api.py:190-191): not with a full
  queue, because the final put has no time-out. `BatchQueue.AbandonedWorkerEndsIff`;
  `BatchQueue.AnAbandonedWorkerCanBlock`.
- The guard promises not to restore a stale hook (rust/src/pipeline.rs:530-532): an install that takes
  the hook between a last drop's decrement and its restore loses the original for good.
  `PanicHook.OriginalRestoredIff`; `PanicHook.TheOriginalCanBeLost`.
- The fragment mark is made of the columns that the walk of the last header leaves, not of the slice a
  fragment carries: an inner IPv6 header inherits the flag of the one around it, extension headers are
  parsed past the fragment header in octets that belong to the datagram, the IPv6 payload length confines
  nothing, and a walk that fails there leaves no mark. `DissectSlices.FrameMarkIsSliceIff`;
  `DissectMarks.InnerPacketTakesTheMark`, `DissectMarks.MarkOfFirst`, `DissectMarks.MarkOfLast`,
  `DissectMarks.SecondHeaderTakesTheMark`, `DissectMarks.FragmentIsLost`.
- An IPv4 packet whose total length is that of its header is not cut off, so padding becomes its payload
  (rust/src/dissect/l3.rs:105-106). `DissectPayload.PayloadEndsAsSaidIff`;
  `DissectPayload.PaddingIsTakenForTcp`.

## Left out

- DissectFields.TcpPayloadAt: the option list itself is skipped, not parsed, because it only fills columns.
- FragmentRuns.IncompleteAllCountedIff: counts sets of fragments, so a datagram abandoned over budget and
  begun again is two of them, because the table keeps no memory of one it has let go.
- BerValues.AsOid: gives the list of arcs; the dots between them are not modelled.
- FlowRuns.SummaryMeans: counters are naturals, so the overflow of 32-bit and 64-bit tallies is not modelled.
- Reading files, gzip, capture blocks, Parquet, Arrow, PyO3 and the command line: a capture is a sequence
  of records and `on_batch` a sink that may refuse; a reader error or a failing batch builder is not modelled.
- The 250-column packet: only the columns the properties depend on are kept.
- Application dissectors, and the fields of ARP, ICMP, IGMP and ESP: unknown functions of their octets.
- SCTP chunks, DNS answers' rendering by type, and BER strings and unsigned integers: field copies.
- MD5, SHA-1, SHA-256 and base64: the Community ID is its preimage.
- Flag words are sets of the nine named TCP bits.
- Real threads, rayon and memory ordering: the parallel map fills its slots in any order, and the hook
  and the queue move in sequentially consistent steps.
- `catch_unwind`: a panic is one of the results of dissecting a record; a panic in `app::dispatch` during
  the serial pass is not modelled.
- `StreamTable::close`, which the pipeline never calls, and `rust/src/schema/split.rs`.
- JA3, JA4 and HASSH fingerprints.
