# Verified models of the DPDK starter programs

The repository is a set of small DPDK programs. Those that contain a protocol, a state machine or header
arithmetic of their own are modelled here and proved correct; the DPDK calls they make are treated by
contract:

- `rte_ring` is a FIFO that holds one packet less than its size; a single ring operation is atomic.
- `rte_eth_rx_burst` delivers any packets, at most a full array; `rte_eth_tx_burst` accepts any prefix.
- `rte_malloc` and mbuf allocation succeed and return fresh memory.
- `rte_ipv4_cksum` is the complement of the one's-complement sum of section 1 of RFC 1071 over the header
  length given by the IHL field.
- The host is little-endian, as `parse_packet` itself assumes when it prints IPv4 addresses.

Concurrent programs are state machines: every ring or device operation is one step, a process's position
and the packets it holds between two steps are part of the state, and theorems hold for every schedule. Each
program also appears in its imperative form, a class or a method that updates fields and arrays in place,
proved equal step by step to the functions the theorems speak about.

| file | models |
|---|---|
| `MessageTrace.dfy` | events and the one conversation of the request/reply programs |
| `TwoRing.dfy` | request/reply over two rings, with the stop value |
| `SingleRing.dfy`, `SingleRingInvariant.dfy` | request/reply over one shared ring with put-back |
| `RingRefinement.dfy` | the single-ring programs implement the two-ring protocol |
| `SingleRingProgress.dfy` | which schedules let the single-ring programs finish |
| `Pipeline.dfy` | the RX, parser and TX threads with their stop flag |
| `FeatureArc.dfy`, `FeatureArcTable.dfy` | feature arc rebuild and walk, on values and on the arrays |
| `PacketGraph.dfy` | the RX/L2/IPv4/IPv6/TX/drop graph |
| `Bursts.dfy` | sorting and freeing bursts of packets |
| `Bytes.dfy`, `Ethernet.dfy`, `Checksum.dfy` | loads and stores in both byte orders, link-layer constants, one's-complement sums |
| `HeaderWalkers.dfy`, `WalkerAgreement.dfy` | the three header walkers and what relates them |
| `WireFormat.dfy` | frames in wire order, and what the walkers make of every one of them |
| `StaticNat.dfy` | static NAT in place |
| `UdpBuilder.dfy` | the UDP frame builder, and building followed by parsing, classifying and NAT |
| `Segregation.dfy` | the control/data segregation loop |

The number of request rounds, the builder's addresses, ports and payload, and the bursts are parameters; the
other constants are the programs'. The history theorems of the feature arc take what the program takes for
granted: distinct node names, and an arc of pairwise distinct nodes. `RebuildWalksIff` drops the second half and
says exactly when a rebuild works; `DuplicateFeatureHidesAnother` is a history in which it does not.

Three results contradict what one might expect of the code, and each comes with its exact condition.

- The two-ring protocol finishes under every schedule that keeps running both processes (`FairRunsFinish`). The
  single-ring protocol does not (`BothRunYetNothingMoves`), since a process can keep dequeuing its own message just
  before the other one looks. A waiting message is delivered if and only if its receiver runs after an even number
  of the sender's steps (`DeliveredIff`), so a block of steps is safe wherever it starts if and only if for each
  process it has two of its steps with an odd number of the other's in between (`MixingIff`); enough such blocks
  finish the protocol (`MixedRunsFinish`), and a schedule that repeats one block does from everywhere if and only
  if the block taken twice is such a block (`CyclicFinishIff`).
- `feature_arc_rebuild` links start, the enabled features and end into one walk if and only if their names are
  pairwise different, all but the end are nodes, and the end had no link before (`RebuildWalksIff`).
- `simulate_nat` repairs the header checksum if and only if the header length field reaches it, which malformed
  headers with a length below 12 bytes do not (`NatHeaderVerifies`, `ShortHeaderStaysWrong`).

The header walkers are compared with frames written field by field in the order of the standards (`WireFormat`), and
checksums with the plain integer sum of the words (`Total`), so that neither rests on the functions it is about.

TCP port 53 counts as control traffic: the code says so, its README does not.

## Model

| member | source | states |
|---|---|---|
| SingleRing.Programs.StepPrimary | inter_process_comm/single_ring_full_duplex/primary.c:26-69 | Each ring operation and each free of the request loop: put back what is not for A, accept a response, finally send the exit message without checking. |
| SingleRing.Programs.StepSecondary | inter_process_comm/single_ring_full_duplex/secondary.c:21-56 | Put back what is not for B, exit on the exit message, answer a request with ten times its value. |
| SingleRing.Programs.Execute | inter_process_comm/single_ring_full_duplex/secondary.c:21-56 | Both programs under any schedule reach the state the step functions give. |
| SingleRingInvariant.StepAt | inter_process_comm/single_ring_full_duplex/primary.c:26-66 | Every step of either process keeps the token invariant and moves to the phase the protocol intends. |
| SingleRingInvariant.SingleRingSafety | inter_process_comm/single_ring_full_duplex/primary.c:39-66 | In every run, for any number of requests: at most one message exists, unchecked enqueues never lose one, the events (recorded at ring operations) are a prefix of request i / reply 10*i in order, and at the end the ring is empty and each allocated message was freed exactly once. |
| SingleRingInvariant.PutBackUndoesPickUp | inter_process_comm/single_ring_full_duplex/secondary.c:24-30 | Picking up the other side's message and putting it back restores the exact state, whatever the other process did meanwhile. |
| SingleRingInvariant.ValuesFit | inter_process_comm/single_ring_full_duplex/secondary.c:46-46 | All message values fit a 32-bit int as long as ten times the largest request does. |
| RingRefinement.StepRefines | inter_process_comm/single_ring_full_duplex/primary.c:39-56 | Each single-ring step is invisible to the two-ring protocol or is exactly the two-ring step of the same process. |
| RingRefinement.SingleRefinesTwo | inter_process_comm/single_ring_full_duplex/secondary.c:21-56 | Over whole runs and any schedule, the single-ring programs refine the two-ring programs: same events, allocations and frees. |
| RingRefinement.UsefulStepsAddUp | inter_process_comm/single_ring_full_duplex/primary.c:26-66 | Useful steps taken plus steps still to come always equal 7n+4; detours change nothing. |
| SingleRingProgress.DeliveredIff | inter_process_comm/single_ring_full_duplex/primary.c:39-56 | A waiting message (request or reply, in the ring or in its sender's hands) reaches its receiver during a block of steps if and only if some receiver step in it comes after a number of sender steps of the right parity; otherwise the block restores the wait up to that parity. |
| SingleRingProgress.MixingIff | inter_process_comm/single_ring_full_duplex/primary.c:41-48 | A block delivers a waiting message from both states of the detour if and only if it has two receiver steps with an odd number of sender steps in between. |
| SingleRingProgress.CyclicDelivery | inter_process_comm/single_ring_full_duplex/secondary.c:24-30 | A block repeated forever delivers a waiting message if and only if it does so the first time or has receiver steps and an odd number of sender steps; otherwise, if that number is even, every repetition restores the state. |
| SingleRingProgress.MixedRunsFinish | inter_process_comm/single_ring_full_duplex/primary.c:26-69 | After any run, both processes return under every schedule that can be cut into 7n+4 blocks that mix for both processes. |
| SingleRingProgress.CyclicFinishIff | inter_process_comm/single_ring_full_duplex/secondary.c:21-56 | Repeating a block finishes the protocol after every run if and only if the block taken twice mixes for both processes. |
| SingleRingProgress.BothRunYetNothingMoves | inter_process_comm/single_ring_full_duplex/primary.c:41-48 | Running both processes forever is not enough: a schedule that keeps both running returns to the same state for any number of rounds. |
| SingleRingProgress.AlternationFinishes | inter_process_comm/single_ring_full_duplex/primary.c:39-56 | Under every schedule in which no process runs twice in a row, whichever starts, the protocol finishes within 7n+4 turns of each. |
| SingleRingProgress.TurnShortens | inter_process_comm/single_ring_full_duplex/primary.c:39-56 | In every reachable state that is not final some process's next step shortens the distance to the end. |
| SingleRingProgress.AlwaysCanFinish | inter_process_comm/single_ring_full_duplex/primary.c:39-66 | From every reachable state both processes can still return, within the remaining useful steps and one put-back. |
| TwoRing.Programs.StepPrimary | inter_process_comm/ring_full_duplex/primary.c:30-51 | Send request i, wait for the reply, free it; after the rounds send -1 without checking. |
| TwoRing.Programs.StepSecondary | inter_process_comm/ring_full_duplex/secondary.c:33-59 | Free and stop on -1, otherwise free the request and reply with ten times its value. |
| TwoRing.Programs.Execute | inter_process_comm/ring_full_duplex/primary.c:30-51 | Both programs under any schedule reach the state the step functions give. |
| TwoRing.StepKeepsInv | inter_process_comm/ring_full_duplex/primary.c:30-51 | Every step of either process keeps the lockstep invariant. |
| TwoRing.TwoRingSafety | inter_process_comm/ring_full_duplex/secondary.c:33-59 | In every run at most one message is live, nothing is lost, the events (recorded at ring operations) are a prefix of the conversation; at the end both rings are empty and each allocated message was freed exactly once. |
| TwoRing.StopIsUnambiguous | inter_process_comm/ring_full_duplex/secondary.c:41-45 | A live message is -1 exactly when the primary has finished its rounds; it is then the only one. |
| TwoRing.StepLowersRank | inter_process_comm/ring_full_duplex/primary.c:34-45 | A step either polls in vain or brings the end closer by one; rank zero is the end. |
| TwoRing.FairRunsFinish | inter_process_comm/ring_full_duplex/secondary.c:33-59 | The two-ring protocol finishes under every schedule that keeps running both processes, within seven pieces a round and four to stop. |
| Pipeline.Threads.StepRx | thread_parsing/threaded_project/rx.c:12-31 | One step of RX: test the flag, receive, enqueue unchecked, stop at ten packets. |
| Pipeline.Threads.StepParser | thread_parsing/threaded_project/parser.c:165-190 | One step of the parser: dequeue a burst, count, forward, free what does not fit. |
| Pipeline.Threads.StepTx | thread_parsing/threaded_project/tx.c:12-30 | One step of TX: dequeue a burst, count, send, free what the card refused. |
| Pipeline.StepKeepsInv | thread_parsing/threaded_project/parser.c:165-190 | Every step of every thread keeps order, counters and bounds. |
| Pipeline.NothingOvertakes | thread_parsing/threaded_project/tx.c:12-30 | Under every interleaving the packets given to tx_burst are, in order, a prefix of those received. |
| Pipeline.RingsNeverFill | thread_parsing/threaded_project/rx.c:15-30 | At most 41 packets are received, so the unchecked enqueue never leaks and the parser's drop loop never frees. |
| Pipeline.RxFillsWhatFits | thread_parsing/threaded_project/rx.c:18-22 | From any state the enqueue loop puts packets into the ring in order while it has room for 1023; the rest leaks. |
| Pipeline.ForwardTakesWhatFits | thread_parsing/threaded_project/parser.c:178-187 | From any state the parser forwards as many packets as fit and frees the rest. |
| Pipeline.ParserRound | thread_parsing/threaded_project/parser.c:168-189 | From every state the pipeline can be in before the stop, one turn of the parser moves the first 32 packets (or all) of its ring to the end of the other and counts them. |
| Pipeline.TxRound | thread_parsing/threaded_project/tx.c:14-28 | Likewise one turn of TX hands the first 32 packets of its ring to the card, which sends the prefix it accepts; the rest is freed. |
| Pipeline.PipelineDrains | thread_parsing/threaded_project/parser.c:165-190 | When no packet comes in and the stop has not come, seven steps of the parser and then seven of TX, interleaved with anything, hand every packet received to the card. |
| Pipeline.RxStops | thread_parsing/threaded_project/rx.c:12-31 | If every poll delivers a packet, 81 steps of RX under any schedule set force_quit. |
| Pipeline.FinalAccounts | thread_parsing/threaded_project/main.c:84-89 | After all threads returned: 10 to 41 received, the three totals differ by what the rings still hold, and everything was handed over exactly when both rings are empty. |
| Pipeline.ShutdownIsPrompt | thread_parsing/threaded_project/rx.c:26-30 | Once force_quit is set at most six more steps happen under any schedule. |
| FeatureArcTable.Program.AddNode | feature_arc/sample/main.c:26-31 | Appends a node without a link. |
| FeatureArcTable.Program.SetNextLink | feature_arc/sample/main.c:33-41 | Rewrites the link of the first match in place, silently nothing without one. |
| FeatureArcTable.Program.FeatureArcInit | feature_arc/sample/main.c:43-48 | Sets start and end and forgets all features. |
| FeatureArcTable.Program.FeatureRegister | feature_arc/sample/main.c:50-55 | Appends a disabled feature. |
| FeatureArcTable.Program.FeatureSet | feature_arc/sample/main.c:57-69 | Writes the flag of every feature with the name, as feature_enable and feature_disable do. |
| FeatureArcTable.Program.FeatureArcRebuild | feature_arc/sample/main.c:71-83 | Rebuilds the links in place. |
| FeatureArcTable.Program.FindNext | feature_arc/sample/main.c:94-97 | The successor of a name is the link of its last match. |
| FeatureArcTable.Program.DumpPipeline | feature_arc/sample/main.c:86-106 | Prints the walk from start and terminates on a table whose links lead forward. |
| FeatureArc.SetNextReads | feature_arc/sample/main.c:33-41 | The link set_next changes is the one dump_pipeline reads; no other changes. |
| FeatureArc.SetNextIsReadIff | feature_arc/sample/main.c:33-41 | On any table, the link set from a node is read back exactly if no other node has its name, since set_next writes the first and dump_pipeline reads the last. |
| FeatureArc.RebuildPrefixLinks | feature_arc/sample/main.c:75-80 | After any number of rebuild iterations the table is valid and the links up to prev run through the enabled features seen so far. |
| FeatureArc.RebuildWalk | feature_arc/sample/main.c:71-83 | A rebuild leaves a walk of start, enabled features as registered, end. |
| FeatureArc.ApplyKeepsValid | feature_arc/sample/main.c:26-83 | Every call keeps the table valid. |
| FeatureArc.AlwaysForward | feature_arc/sample/main.c:86-106 | In every reachable state, even halfway through a rebuild, all links including stale ones lead strictly forward. |
| FeatureArc.WalkIsLastRebuild | feature_arc/sample/main.c:26-106 | After any history the walk is the one of the last rebuild, whatever nodes, features and flag changes followed it. |
| FeatureArc.FlagIsLastChange | feature_arc/sample/main.c:50-69 | A feature is enabled exactly when the last call naming it enabled it. |
| FeatureArc.RebuildWalksIff | feature_arc/sample/main.c:71-106 | For every table of distinct node names and every arc: the rebuilt links visit start, the enabled features as registered, end and stop there if and only if these names are pairwise different, all but the last are nodes, and the end had no link before. |
| FeatureArc.DuplicateFeatureHidesAnother | feature_arc/sample/main.c:50-83 | A history that registers a feature twice around another, enables both and rebuilds: the walk passes the other one by. |
| PacketGraph.Graph.RxNodeProcess | graph/pipeline/pipeline.c:29-44 | Enqueues the received burst to L2. |
| PacketGraph.Graph.Classify | graph/pipeline/pipeline.c:63-76 | Splits up to 32 packets into three arrays of 32 entries, without overrun: the stable sub-sequences of ether type 0x0800, of 0x86DD and of all others. |
| PacketGraph.Graph.L2NodeProcess | graph/pipeline/pipeline.c:57-83 | Moves all pending packets to the next nodes: ether type 0x0800 to IPv4, 0x86DD to IPv6, all others to drop. |
| PacketGraph.Graph.Ipv4NodeProcess | graph/pipeline/pipeline.c:99-108 | Moves all IPv4 packets to TX. |
| PacketGraph.Graph.Ipv6NodeProcess | graph/pipeline/pipeline.c:120-129 | Moves all IPv6 packets to TX. |
| PacketGraph.Graph.TxNodeProcess | graph/pipeline/pipeline.c:141-154 | Sends a prefix and frees the rest. |
| PacketGraph.Graph.DropNodeProcess | graph/pipeline/pipeline.c:164-173 | Frees everything. |
| PacketGraph.PickPartitions | graph/pipeline/pipeline.c:63-76 | The three-way split of L2 loses and duplicates nothing. |
| PacketGraph.L2SortsByNumber | graph/pipeline/pipeline.c:63-82 | Which queue receives a packet of each ether type, by the number on the packet, and in which order. |
| Bursts.PickCounts | graph/pipeline/pipeline.c:69-76 | Sorting by a key puts each packet into the part of its key as often as it occurs, and into no other. |
| Bursts.PickIsPure | graph/pipeline/pipeline.c:71-75 | Each part of a split, by family or by control and data, holds only packets of its key. |
| Bursts.FreeFrom | graph/pipeline/pipeline.c:149-152 | The loops that free what the card refused free exactly the tail, in order. |
| PacketGraph.StepKeepsOrder | graph/pipeline/pipeline.c:57-154 | Every node run keeps the order within each IP family. |
| PacketGraph.WalkDelivers | graph/pipeline/pipeline.c:230-231 | Whenever a walk has ended, under any order of nodes, every packet was sent or freed exactly once; the packets with ether type 0x0800 and with 0x86DD reached the card, each in arrival order, and no others did. |
| PacketGraph.SentIsAccepted | graph/pipeline/pipeline.c:141-154 | What was sent is, call by call, the prefix the card accepted. |
| PacketGraph.AllAccepted | graph/pipeline/pipeline.c:141-154 | If the card accepts everything, everything handed to it was sent. |
| PacketGraph.L2NeverOverruns | graph/pipeline/pipeline.c:63-80 | L2 is never given more than 32 packets. |
| PacketGraph.WalkEnds | graph/pipeline/pipeline.c:230-231 | After the source at most six nodes run, whichever are picked. |
| Checksum.SumIsTotal | NAT/static_nat/main.c:64-65 | The one's-complement sum is the plain integer sum of the 16-bit words modulo 0xFFFF, and zero only for an all-zero header. |
| Checksum.SumsAreSwapped | NAT/static_nat/main.c:64-65 | Byte-order independence: the host's sum is the swapped network sum. |
| Checksum.ComplementVerifies | NAT/static_nat/main.c:64-65 | Storing the complement of the sum taken with a zero field makes the header verify: its words add up to a positive multiple of 0xFFFF. |
| StaticNat.SimulateNat | NAT/static_nat/main.c:33-72 | The in-place rewrite of the packet buffer is the NAT function. |
| StaticNat.RewriteAddress | NAT/static_nat/main.c:53-61 | One address test with its store. |
| StaticNat.RefreshChecksum | NAT/static_nat/main.c:64-65 | The checksum recompute in place. |
| StaticNat.NatRewritesOnlyAddresses | NAT/static_nat/main.c:39-65 | Only source, destination and checksum bytes may change; the addresses become the translated ones; other frames are untouched. |
| StaticNat.NatOnBytes | NAT/static_nat/main.c:39-61 | By the bytes: only frames with 08 00 at offset 12 are touched, 172.22.116.70 as source becomes 203.0.113.10, 203.0.113.10 as destination becomes 172.22.116.70, all else stays but the checksum. |
| StaticNat.NatChecksumExact | NAT/static_nat/main.c:64-65 | The stored checksum is exactly the number that makes the words covered by the length field add up to zero modulo 0xFFFF. |
| StaticNat.NatHeaderVerifies | NAT/static_nat/main.c:64-65 | The header verifies afterwards (its words add up to a positive multiple of 0xFFFF) if and only if the header length reaches the checksum field (always so in valid headers) or it verified before. |
| StaticNat.ShortHeaderStaysWrong | NAT/static_nat/main.c:64-65 | For each header length field below three there is a complete frame whose header does not verify afterwards. |
| StaticNat.NatIsIdempotent | NAT/static_nat/main.c:53-65 | Translating twice is translating once. |
| StaticNat.NatRoundTrip | NAT/static_nat/main.c:53-61 | Outbound and back reaches the private host with the peer unchanged, if and only if the peer is neither NAT address. |
| StaticNat.NatLeavesNoTrace | NAT/static_nat/main.c:53-65 | The delivered reply equals the reply to the untranslated frame with a fresh checksum. |
| HeaderWalkers.ParsePacket | ports/packet_parsing/packet_parsing.c:20-155 | The parser's loads and offset arithmetic decode the header fields and the final offset. |
| HeaderWalkers.ParseIpv4 | ports/packet_parsing/packet_parsing.c:55-115 | The IPv4 branch: addresses, protocol, header length, then the transport header. |
| HeaderWalkers.DecodeTransport | ports/packet_parsing/packet_parsing.c:75-114 | The UDP, TCP and ICMP branches below IPv4. |
| HeaderWalkers.ParseIpv6 | ports/packet_parsing/packet_parsing.c:118-154 | The IPv6 branch. |
| HeaderWalkers.ExtractKey | ACL/real_packet_acl/main2.c:201-237 | The flow key taken from the raw fields, or none for frames that are not IPv4. |
| HeaderWalkers.ClassifyPacket | control_data_segregation/main.c:67-123 | Control exactly for ICMP, OSPF and the listed ports under complete headers; every read is in bounds on every input. |
| WireFormat.ParseUndoesEncode | ports/packet_parsing/packet_parsing.c:20-155 | For every frame written from fields in wire order (tagged or not; IPv4 with any options, IPv6, other; UDP, TCP, ICMP, other), the parser returns these fields and the offset behind the headers. |
| WireFormat.KeyOfEncode | ACL/real_packet_acl/main2.c:201-237 | The flow key of such a frame holds its protocol, addresses and ports; other than IPv4 is freed. |
| WireFormat.VerdictOfPrefix | control_data_segregation/main.c:67-123 | Every prefix of such a frame is control exactly if it is IPv4 with ICMP, OSPF or a listed destination port and holds the headers the test takes. |
| WireFormat.OptionsDoNotMatter | control_data_segregation/main.c:96-98 | Exchanging IPv4 options changes no field, key or verdict and moves the parser's offset by the difference in length. |
| WireFormat.PortsByLengthField | ports/packet_parsing/packet_parsing.c:70-72 | For every length field, also below five, all three walkers take ports and addresses from the same bytes of the frame. |
| WireFormat.EveryFrameIsWritten | ports/packet_parsing/packet_parsing.c:20-155 | Every frame with complete headers and a length field of at least five is written from some fields, so the laws above hold for all of them. |
| WalkerAgreement.ParserAndKeyAgree | ACL/real_packet_acl/main2.c:204-237 | Parser and ACL key give the same protocol, addresses and ports on every frame holding the bytes they read. |
| WalkerAgreement.ClassifierIsTableOfParser | control_data_segregation/main.c:100-122 | The classifier is its table applied to the parsed fields, given complete UDP and TCP headers. |
| WalkerAgreement.OffsetFits | ports/packet_parsing/packet_parsing.c:22-105 | The 16-bit offset never wraps. |
| WalkerAgreement.TagDoesNotMatter | control_data_segregation/main.c:79-85 | Inserting an 802.1Q tag changes the verdict only for control traffic that was already tagged. |
| WalkerAgreement.ParserSeesThroughTag | ports/packet_parsing/packet_parsing.c:44-52 | An untagged frame and its tagged copy decode alike. |
| WalkerAgreement.ControlIsPrefixMonotone | control_data_segregation/main.c:92-121 | Appending bytes to control traffic leaves it control. |
| WalkerAgreement.VerdictNeedsOnly98Bytes | control_data_segregation/main.c:72-121 | Bytes behind the first 98 never decide. |
| UdpBuilder.BuildUdpPacket | tranmit_packet/packet_creation/simple_tx.c:13-69 | Writes the frame field by field into the buffer, nothing behind it. |
| UdpBuilder.BuiltIsWritten | tranmit_packet/packet_creation/simple_tx.c:40-68 | A built frame is the frame in wire order with these fields, no options, time to live 64 and no UDP checksum. |
| UdpBuilder.ConstantBytes | tranmit_packet/packet_creation/simple_tx.c:45-66 | The bytes that are the same in every built frame, by offset. |
| UdpBuilder.ParseUndoesBuild | tranmit_packet/packet_creation/simple_tx.c:40-68 | Parsing a built frame recovers all fields and ends at the payload. |
| UdpBuilder.BuiltLengthsAndChecksum | tranmit_packet/packet_creation/simple_tx.c:48-63 | The length fields agree with the frame and the IP header verifies: its words add up to a positive multiple of 0xFFFF. |
| UdpBuilder.BuiltChecksumExact | tranmit_packet/packet_creation/simple_tx.c:58-59 | The stored checksum is exactly the number that makes the ten words of the header add up to zero modulo 0xFFFF. |
| UdpBuilder.BuiltFrameClass | control_data_segregation/main.c:108-113 | A built frame is control exactly for the control UDP ports. |
| UdpBuilder.NatOfBuilt | NAT/static_nat/main.c:53-65 | Translating a built frame is building the frame with translated addresses. |
| Segregation.Segregator.Iteration | control_data_segregation/main.c:176-203 | One pass of the main loop. |
| Segregation.Segregator.EnterFrame | control_data_segregation/main.c:180-193 | Enqueue to the ring of its class and count, or free if the ring is full. |
| Segregation.PickPartitions | control_data_segregation/main.c:180-193 | Splitting a burst into control and data loses and duplicates nothing. |
| Segregation.RingsTakeWhatFits | control_data_segregation/main.c:180-193 | From any rings and for any burst, each ring takes the frames of its class in order until it holds 2047, and its counter counts those. |
| Segregation.IterationConserves | control_data_segregation/main.c:180-203 | From any state one pass neither loses nor doubles a frame: it is in a ring, freed or passed to the card. |
| Segregation.IterateDelivers | control_data_segregation/main.c:180-203 | From empty rings one pass hands over the burst as control frames, then data frames, and leaves the rings empty. |
| Segregation.LoopDelivers | control_data_segregation/main.c:176-203 | For all sequences of bursts: rings empty at every loop head, no enqueue fails, counters add up to packets received. |
| Segregation.EveryFrameIsHandedOver | control_data_segregation/main.c:195-203 | Every frame received is passed to the card exactly once. |

## Left out

- SingleRingProgress.AlwaysCanFinish: says that the end stays reachable, not that it is reached, because it need not be (BothRunYetNothingMoves). DeliveredIff, MixedRunsFinish and CyclicFinishIff say when it is.
- Memory ordering inside `rte_ring` and of the volatile flag: operations are atomic steps. Running out of memory in `rte_malloc`, whose result the programs do not check.
- StaticNat.NatHeaderVerifies: the IP header checksum only; the program does not update TCP and UDP checksums, which section 4.1 of RFC 3022 asks for.
- Segregation.LoopDelivers: ends at the call of `tx_burst`; the program ignores its result, so frames the card refuses are never released.
- Pipeline.FinalAccounts: packets left in the rings at shutdown are never released; the lemma says which they are. 64-bit counters are unbounded numbers. What `parse_packet` prints inside the parser thread is modelled in HeaderWalkers, not per packet in the thread.
- UdpBuilder.BuildUdpPacket: the order of the stores inside the IPv4 header, and the fixed addresses and text of the program, which are parameters.
- Big-endian hosts, on which `parse_packet` would print IPv4 addresses reversed.
- Frames too short for what `parse_packet`, the ACL key extraction and `simulate_nat` read: those programs check no length, so their models require the bytes.
- `nic_stats/sample`, whose threads run the same loops as the modelled pipeline.
- Queue-to-core assignment in `rss_dpdk/af_packet_rss/main.c`, MAC swapping and learning, the toy graphs and the plain ring demos: only easy members.
- Programs whose logic lives in DPDK libraries: ACL build and classify, LPM, reordering, eventdev, telemetry, hashing, vhost, metering. Set-up, printing, sleeping and signals.
