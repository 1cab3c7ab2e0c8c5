# Verified model of the SFU's core algorithms

This project models the algorithms at the heart of the streaming server in Dafny and proves what they promise. Each group of files stands for one component; `dafny verify dfyconfig.toml` verifies all of them.

| files | component |
|---|---|
| `Heap.dfy` | the pointer-linked binary min-heap of libuv |
| `PilotCenter.dfy`, `SfuRoom.dfy`, `Cluster.dfy`, `ClusterNews.dfy`, `ClusterClients.dfy`, `ClusterRuns.dfy` | rooms at the pilot center and at the nodes, and the protocol between them as a step system |
| `RtpSession.dfy`, `RtpSendSession.dfy`, `RtxCache.dfy`, `NackGenerator.dfy`, `NackRuns.dfy`, `NackPacket.dfy`, `Jitter.dfy`, `RtpRecvSession.dfy`, `Relay.dfy`, `RelayRuns.dfy` | RTP sequence tracking, loss detection, retransmission and its relay between two nodes |
| `JitterBuffer.dfy`, `JitterRuns.dfy` | the reordering buffer |
| `Timer.dfy` | the timer map and its pass with mutating callbacks |
| `Inet4.dfy`, `Inet6.dfy`, `Inet6Language.dfy` | IPv4 and IPv6 text forms |
| `Rfc4291.dfy`, `Rfc5952.dfy`, `Rfc3492.dfy` | what texts of addresses and of host names mean, written from the standards alone, for the two groups around them to be measured against |
| `Utf8.dfy`, `Punycode.dfy`, `Idna.dfy` | host names in ASCII |
| `Nal.dfy`, `Hevc.dfy` | NAL unit framing, emulation prevention, the bit reader and the H.265 picture size |
| `Crc.dfy` | the table-driven CRC-32 variants |
| `Common.dfy`, `ModArith.dfy` | shared definitions and remainders |

Code that updates state in place is modelled by methods of classes over the same fields. Each is proved against a function or predicate of the state before, and the results below are lemmas about those functions, over all inputs and over whole runs. Clocks, the order of message delivery, losses, repetitions, the actions of callbacks and the classifier of the reordering buffer are parameters, so the results hold for all of them.

## Main results

- `Cluster.NewsReachesEveryNode`: over every run of nodes, center and links, a registered node knows each announced user of its room, or the news is under way. `Cluster.NobodyInvented` is its converse, `Cluster.AnnouncedOnce` counts the announcements exactly, and `ClusterClients.ToldExactly` says which clients each of them reaches.
- `Heap.Heap.Insert` and `Heap.Heap.Remove`: the pointer operations keep a complete, linked and ordered tree and change its set of nodes by exactly one.
- `RelayRuns.RecoveredIsGenuine`, `RelayRuns.NewestAreRecovered`, `RelayRuns.NeverTwice`: what retransmission delivers is what was sent, it does deliver, and never a second time.
- `RtxCache.CacheWindow`, `RtpSession.Reconstruction`, `NackRuns.LossesAreExact`: which packets a cache of 1000 slots finds, what the 32-bit sequence number counts and which numbers are taken for lost, each exactly, over all runs; `NackRuns.TicksAreExact` says when each is requested and given up.
- `Timer.FireSoundIff`, `Timer.PassFiresAll`, `Timer.FiresOnTime`, `Timer.NeverEndsIff`: what a pass over a map that callbacks change fires, when, and whether it ends.
- `JitterRuns.DeliveredOnce`, `JitterRuns.DeliveredInOrder`, `JitterRuns.InOrderIff`: the reordering buffer delivers at most once and, with a proper classifier, in order; with the one in use, exactly when no push breaks a condition that can be read off before it.
- `Idna.LabelDecodes` with `Idna.ToAscii`, `Inet6.PrintsRfc5952`, `Inet6Language.ParseIff`, `Inet6Parser.ParsePrint6`, `IpAddress.SameLanguage`: texts and what they stand for, there and back, and by the standards.
- `Nal.SplitJoinedIff`, `HevcSps.SpsRoundTrip`: framing and the picture size, there and back.
- `CrcReflected.RunIsSerial`, `CrcReflected.ReflectedBurst`: the table loop is the bit-serial CRC-32 and misses no burst of up to four bytes.

## Where the code differs from what one would expect

The model follows the code. These are proved, each with its exact condition where there is one:

- `RtcpFbNack` writes the bitmap of a NACK in the opposite bit order to the one it reads (`NackPacket.ReadsBackIff`): a request survives only if it is symmetric, and a span of more than 16 is undefined.
- `FastJitterBuffer` hands the next expected number to a comparison written for the last one, so the expected packet itself is taken for a repetition (`JitterRuns.ExpectedIsIgnored`): even in perfect order the second packet is lost, and number 1 after a later wrap (`JitterRuns.PerfectOrderLoses`). Packets are delivered out of order exactly when one is older than expected, or follows an expected number that itself still waits (`JitterRuns.InOrderIff`).
- `UpdateNackList` misses a gap across the wrap, exactly when the newest number is below 65535 and the packet's is smaller (`NackRuns.GapRecordedIff`), and the receive session's first packet is never shown to it, so that it may be requested although it was received (`RelayRuns.RequestedThoughAccepted`).
- A timer that ends by its callback's return value alone cannot be started again (`Timer.EndedInTuneIff`); one whose callback stops it and says it goes on is left with an entry too many (`Timer.FireSoundIff`). While callbacks go on, the pass does not end if an entry is due whose timer has a timeout of 0 (`Timer.NeverEndsIff`).
- A join response that arrives after 8 seconds is dropped with its news (`ClusterRuns.LateResponseLoses`), and a push by an unknown user makes it a member that no node is told of (`ClusterRuns.PushDoesNotAnnounce`).
- A node does not drop a remote user that has left, and so does not announce it when it joins again; a client that reconnects gets no callback, and so no notification any more (`Cluster.RejoinIsSilent`).
- The UTF-8 decoder checks continuation octets only by the exclusive or of their top bits, and takes a lead octet with too few octets behind it for a shorter one: it accepts some malformed texts, which `Utf8.DecodesIff` describes exactly.
- The H.265 parser expects the flags of sub-layers in front of each one's data, and not all at once, padded to 16 bits, as the standard has them (`HevcSps.ParsesSps`, `HevcSps.StandardLayersMisread`).
- The jitter filter rounds a state of 8 modulo 16 differently from RFC 3550 (`Jitter.DiffersFromRfc3550`).
- In `inet_ntop6` the case of a run of seven zero words with an embedded IPv4 address cannot occur: word 6 is then inside the run (asserted in `Inet6.Format`). In `heap_remove` the test whether the removed last leaf is also the minimum never succeeds: unlinking the leaf has by then cleared the root pointer (asserted in `Heap.Heap.Remove`).

## Model

| member | source | states |
|---|---|---|
| `Heap.Heap.constructor` | 3rdparty/libuv/src/heap-inl.h:62-65 | An empty heap, valid |
| `Heap.Heap.Swap` | 3rdparty/libuv/src/heap-inl.h:72-104 | The eight pointer assignments exchange a node with its child and nothing else: in the tree read as a sequence, just these two places trade their nodes, and all links stay mutually consistent |
| `Heap.Heap.SiftUp` | 3rdparty/libuv/src/heap-inl.h:143-147 | From a tree ordered except above one node, swapping that node upwards ends in an ordered tree of the same nodes |
| `Heap.Heap.SiftDown` | 3rdparty/libuv/src/heap-inl.h:216-229 | From a tree ordered except below one node, swapping it with its smaller child ends with order restored below, on the same nodes |
| `Heap.Heap.Descend` | 3rdparty/libuv/src/heap-inl.h:126-136 | Following the bits of a number leads to the link of the place with that number |
| `Heap.Heap.Insert` | 3rdparty/libuv/src/heap-inl.h:106-148 | Inserting a fresh node into a valid heap gives a valid heap: complete, consistently linked in both directions, ordered for any strict weak order, with exactly that one node more |
| `Heap.Heap.Fill` | 3rdparty/libuv/src/heap-inl.h:189-236 | The unlinked last leaf takes the place of a node and is walked to where it belongs |
| `Heap.Heap.Remove` | 3rdparty/libuv/src/heap-inl.h:150-237 | Removing any node of a valid heap gives a valid heap with exactly that node less |
| `Heap.Heap.Dequeue` | 3rdparty/libuv/src/heap-inl.h:239-241 | Removes the node at the root, which no other node precedes; an empty heap stays empty |
| `Heap.Heap.MinIsLeast` | 3rdparty/libuv/src/heap-inl.h:67-69 | The root of a valid heap is a minimum of its keys |
| `HeapOrder.RootIsMinimum` | 3rdparty/libuv/src/heap-inl.h:67-69 | In a sequence ordered along parent edges by a strict weak order nothing precedes the first element |
| `HeapOrder.SwapUp` | 3rdparty/libuv/src/heap-inl.h:143-147 | One upward swap moves the only violated edge one level up |
| `HeapOrder.SwapDown` | 3rdparty/libuv/src/heap-inl.h:216-229 | One downward swap moves the only violated place one level down |
| `HeapOrder.AppendReady` | 3rdparty/libuv/src/heap-inl.h:138-147 | Appending a leaf to an ordered tree violates order at most at its own edge |
| `HeapOrder.ReplaceReady` | 3rdparty/libuv/src/heap-inl.h:195-237 | Putting the last leaf into the place of a removed node violates order only around that place, on one side |
| `HeapOrder.WalkBack` | 3rdparty/libuv/src/heap-inl.h:119-136 | The path spelled by a place's bits leads from the root back to that place: the shift loop and the parent relation agree |
| `HeapOrder.PathFits` | 3rdparty/libuv/src/heap-inl.h:119-136 | A path of up to 32 bits suffices for every tree of fewer than 2^32 nodes |
| `PilotRoom.Room.HandleJoin` | pilot_center/room/room.py:57-121 | The joiner is in the room, bound to the session, which is registered; exactly the other sessions are told, unless it is an audience member, and the answer lists all others who are not |
| `PilotRoom.Room.HandleUserLeave` | pilot_center/room/room.py:228-252 | A known user is removed and every session but its own is told once; an unknown one changes nothing |
| `PilotRoom.Room.HandleUserDisconnect` | pilot_center/room/room.py:207-226 | The user stays, loses the session if it is the one bound, and all others are told |
| `PilotRoom.Room.HandlePush` | pilot_center/room/room.py:271-301 | A push makes an unknown user a member without a session, and tells every session but the user's own |
| `PilotRoom.Room.BroadcastExceptUser` | pilot_center/room/room.py:140-175 | Every registered session but that of the named user gets the message exactly once |
| `PilotRoom.Room.CloseSession` | pilot_center/websocket_protoo/ws_protoo_session.py:104-151 | Closing a session removes it and just those of its users that are still bound to it or to none |
| `SfuRoom.Room.UserJoin` | src/webrtc_room/room.cpp:209-301 | A new user is local and joins at the center, and is announced unless it only listens; a present one only reconnects, of which the others and the center are told, with its audience flag updated; the response lists the others, without those that only listen for a new user and with them for a present one |
| `SfuRoom.Room.WhipUserJoin` | src/webrtc_room/room.cpp:165-207 | A new user is local and without a connection; a present one stays as it is; either way it joins at the center and is announced |
| `SfuRoom.Room.VoiceAgentAiJoin` | src/webrtc_room/room.cpp:1961-2000 | The agent is inserted, joins at the center and is announced, once |
| `SfuRoom.Room.Notify` | src/webrtc_room/room.cpp:303-351 | A notification about a user reaches exactly the other local users that have a callback |
| `SfuRoom.Room.HandleNewUser` | src/webrtc_room/room.cpp:1495-1524 | An unknown user is inserted as remote, and the local users with a callback are told; of a known one nobody is told and nothing changes |
| `SfuRoom.Room.HandleJoined` | src/webrtc_room/room.cpp:1441-1493 | Exactly the listed users that were not there are inserted and announced, each once, and of each the local users with a callback are told |
| `SfuRoom.Room.HandleNewPusher` | src/webrtc_room/room.cpp:1526-1598 | News of a pusher neither removes nor announces users, marks a known user as remote, and reaches every other user with a callback; of an unknown user it is dropped |
| `SfuRoom.Room.DisconnectUser` | src/webrtc_room/room.cpp:438-479 | A lost client leaves its user in place, unreachable; the other local clients and the center are told |
| `SfuRoom.Room.OnTimer` | src/webrtc_room/room.cpp:42-88 | Exactly the local users that went silent are erased, and one leave goes to the center for each |
| `Cluster.StepKeeps` | src/webrtc_room/room.cpp:111-163 | Every one of the twelve kinds of step, at a node, at the center or on a link, keeps the invariant: wiring, session consistency, joins backed by a present user, and membership with messages in flight |
| `Cluster.RunKeeps` | src/webrtc_room/room.cpp:1343-1369 | So does every run |
| `Cluster.NewsReachesEveryNode` | pilot_center/room/room.py:57-121 | In every state of every run a registered node knows each announced user of the room, or news of it is in flight, or the node's own leave of it is |
| `Cluster.QuietNodeKnowsEveryone` | pilot_center/room/room.py:57-121 | When nothing is in flight on its link, the node knows all of them |
| `ClusterRuns.LateResponseLoses` | src/webrtc_room/pilot_message_client.cpp:111-135 | Two users join, one at each node, and the response to the second comes too late: for any two users there is a run from the start after which nothing is under way and a registered node does not know an announced user of its room |
| `ClusterRuns.PushDoesNotAnnounce` | pilot_center/room/room.py:271-301 | The same end is reached when a user whom the center learns of from a push alone is a member there, and a node that hears of the push does not insert it |
| `Cluster.HandleAddsUser` | pilot_center/room/room.py:57-121 | What handling a message can add to a room of the center is the user the message names |
| `Cluster.CloseForgets` | pilot_center/websocket_protoo/ws_protoo_session.py:104-151 | After a session is closed no room refers to it, no user is bound to it, and users and registrations of other sessions are untouched |
| `Cluster.CloseKeepsConsistent` | pilot_center/websocket_protoo/ws_protoo_session.py:104-151 | Closing keeps session consistency |
| `Cluster.JoinConsistent` | pilot_center/websocket_protoo/ws_protoo_session.py:215-245 | Joining keeps it: whoever holds a session is among its participations and the session is registered in the room |
| `Cluster.AnnouncedOnce` | src/webrtc_room/room.cpp:1456-1519 | Over any run from the start, how often a node announced a user on news from the center and inserted it because it joined there is how often it erased the user, and once more if it has the user now |
| `Cluster.AnnouncedIff` | src/webrtc_room/room.cpp:1495-1524 | After any run, a delivered newUser is announced if and only if every earlier insertion of that user at the node has been followed by its erasure |
| `Cluster.RejoinIsSilent` | src/webrtc_room/room.cpp:1692-1741 | Until its own timer erases the user, a node keeps it, announces it on no news from the center however often it leaves and joins again, and never again notifies it once its client has lost its connection |
| `Cluster.NobodyInvented` | src/webrtc_room/room.cpp:1441-1524 | Over any run, whoever a node or the center has in a room joined that room at some node |
| `ClusterClients.ToldExactly` | src/webrtc_room/room.cpp:303-351 | After any run from the start, whatever step comes next: a client is told of a new user, and then once, if and only if its node announces that user and it is another's, is not lost and has not been marked as remote; nobody else is told |
| `ClusterClients.ListensIff` | src/webrtc_room/room.cpp:165-301 | Who is told: after any step, the users that joined the node as new ones, until the client is lost, the user erased or replaced by the agent, or the center tells of a pusher of that very user |
| `ClusterClients.JoinedAreTold` | src/webrtc_room/room.cpp:209-351 | In every run a user that joined a room at a node is told, exactly once, of every other user that the node announces there later, unless one of those came in between |
| `ClusterNews.HandleTells` | pilot_center/room/room.py:57-301 | Handling a message sends every session of the center just this, at the end of its queue: the joiner's the list of the others that do not only listen, every other registered one the news of the joiner; of a leave, a disconnect or a push those registered ones that are not the user's own |
| `ClusterNews.OwnTells` | src/webrtc_room/room.cpp:165-301 | What each step of a node's own sends to the center: a first join as a join, a further one as a reconnect, a lost client as a disconnect, an erased user as a leave |
| `RtpSession.Session.InitSeq` | src/webrtc_room/rtp_session.cpp:91-96 | Sequence tracking starts at the given number, with no cycle counted |
| `RtpSession.Session.UpdateSeq` | src/webrtc_room/rtp_session.cpp:98-134 | The three cases of the 16-bit difference, exactly, with the probation number and the discard count |
| `RtpSession.Reconstruction` | src/webrtc_room/rtp_session.cpp:98-134 | Across any number of wraps, packets at most 1499 below and 2999 above the running maximum are all accepted and `cycles + max` is that maximum modulo 2^32 |
| `RtpSession.UpdateTracks` | src/webrtc_room/rtp_session.cpp:98-134 | One such packet: accepted, and the state stands for the new maximum |
| `RtpSession.AcceptedIff` | src/webrtc_room/rtp_session.cpp:98-134 | Of the numbers in reach a packet is accepted if and only if it lies in that window or is the one put on probation |
| `RtpSession.NextAcceptedIff` | src/webrtc_room/rtp_session.cpp:91-134 | After any run of packets in that window, from the first one on, the next one in reach is accepted if and only if it lies in the window: none is on probation |
| `RtpSession.RestartTakesTwo` | src/webrtc_room/rtp_session.cpp:115-130 | A sender that restarts at least 3000 ahead and at least 1501 behind is refused once and accepted with its next packet, from which the count starts anew |
| `RtpPacket.DemuxMux` | src/net/rtprtcp/rtp_packet.cpp:652-693 | The wrapped packet carries the number, high byte first, and then the payload; unwrapping undoes wrapping for every packet, up to the padding that wrapping drops |
| `RtpPacket.MuxDemux` | src/net/rtprtcp/rtp_packet.cpp:652-693 | Wrapping undoes unwrapping of every unpadded packet that can be unwrapped |
| `RtpSendSession.Session.StoreRtxPacket` | src/webrtc_room/rtp_send_session.cpp:73-87 | Overwrites the slot of the number modulo 1000, and only when retransmission is configured |
| `RtpSendSession.Session.SendRtpPacket` | src/webrtc_room/rtp_send_session.cpp:42-71 | A refused packet is neither sent nor cached; an accepted one is cached |
| `RtpSendSession.Session.RecvRtcpFbNack` | src/webrtc_room/rtp_send_session.cpp:89-137 | What a list of requests sends, and the cache and counter after it, as one answer after another; the rows of `RtxCache` say which these are |
| `RtxCache.CacheWindow` | src/webrtc_room/rtp_send_session.cpp:42-120 | After any run of consecutive sends, wraps included, a request finds its packet if and only if fewer than `Lifetime` packets followed it, and otherwise finds none |
| `RtxCache.Newest536` | src/webrtc_room/rtp_send_session.cpp:73-120 | Each of the newest 536 packets can be retransmitted, and each of the newest 1000 when no wrap interferes |
| `RtxCache.TightAt536` | src/webrtc_room/rtp_send_session.cpp:73-120 | 536 is the best possible: the 537th newest packet is gone if and only if it is among the last 536 numbers before a wrap |
| `RtxCache.AnswersAreAsked` | src/webrtc_room/rtp_send_session.cpp:89-137 | A request never retransmits a packet under another number; answers carry cached payloads behind increasing retransmission numbers |
| `RtxCache.AnswersCount` | src/webrtc_room/rtp_send_session.cpp:89-137 | When the session retransmits, a list of requests is answered by as many packets as it names numbers that are cached |
| `RtxCache.AnswersAll` | src/webrtc_room/rtp_send_session.cpp:89-137 | In the order of the list: each answer is of the next such number, with the payload cached under it and that number in front, and its own number is the next of the retransmission stream |
| `RtxCache.AnswerKeepsCached` | src/webrtc_room/rtp_send_session.cpp:89-137 | Answering leaves everything cached that was, but for padding |
| `RtxCache.ConsecutiveAccepted` | src/webrtc_room/rtp_send_session.cpp:42-71 | Consecutive packets are all accepted, across wraps |
| `NackGenerator.Generator.UpdateNackList` | src/webrtc_room/nack_generator.cpp:35-91 | The five cases of a packet, exactly: first, same, older, next, gap |
| `NackGenerator.Generator.OnTimer` | src/webrtc_room/nack_generator.cpp:93-147 | Requests exactly the due losses in strictly ascending order, counts and dates them, gives up those requested 81 times, and leaves at most the 5000 largest numbers |
| `NackGenerator.Generator.Request` | src/webrtc_room/nack_generator.cpp:93-117 | The walk over the losses: due ones are listed ascending and updated, exhausted ones erased |
| `NackGenerator.Generator.Trim` | src/webrtc_room/nack_generator.cpp:135-143 | Erases from the low end down to 5000 entries |
| `NackGenerator.Generator.IsInNackList` | src/webrtc_room/nack_generator.cpp:27-33 | Whether a number is among the losses |
| `NackRuns.LossesAreExact` | src/webrtc_room/nack_generator.cpp:35-147 | After any run within one cycle the losses are exactly the numbers strictly between the first and the newest, less those received and those given up or displaced |
| `NackRuns.RequestsArePaced` | src/webrtc_room/nack_generator.cpp:93-147 | Over any such run each number is requested at most 81 times, at least a round trip apart |
| `NackRuns.TickAsksIff` | src/webrtc_room/nack_generator.cpp:93-117 | In any such run a tick requests a number if and only if it is missing, was requested at most 80 times, and last at least a round trip ago, one never requested counting as requested at time 0 |
| `NackRuns.TickDropsIff` | src/webrtc_room/nack_generator.cpp:93-143 | And it gives a number up if and only if that was requested 81 times, or at least 5000 larger ones are missing that were not |
| `NackRuns.TicksAreExact` | src/webrtc_room/nack_generator.cpp:93-143 | Both hold at every tick of every such run |
| `NackRuns.StepGood` | src/webrtc_room/nack_generator.cpp:35-147 | Every packet and every tick keeps the set exact and the requests paced |
| `NackRuns.GapRecordedIff` | src/webrtc_room/nack_generator.cpp:78-90 | The gap before a newer packet is recorded in full if and only if it does not straddle the wrap: the packet's number is the greater one, or the newest is 65535 |
| `NackRuns.StraddlingGap` | src/webrtc_room/nack_generator.cpp:78-90 | Of the three numbers skipped from 65533 to 1 none is recorded |
| `NackPacket.Writer.InsertBlock` | src/net/rtprtcp/rtcpfb_nack.hpp:83-99 | Appends the block with bit 16-d set for distance d, defined if and only if no number is more than 16 past the first |
| `NackPacket.Writer.InsertSeqList` | src/net/rtprtcp/rtcpfb_nack.hpp:65-81 | A list is written, as one block, if and only if it spans at most 16; else the shift is undefined |
| `NackPacket.GetLostSeqs` | src/net/rtprtcp/rtcpfb_nack.hpp:101-119 | Reads each block's number and then its marked successors, lowest bit first |
| `NackPacket.ReadsBackIff` | src/net/rtprtcp/rtcpfb_nack.hpp:65-119 | A written request reads back as itself if and only if the distances from its first number are symmetric about 8.5, for every writable list |
| `NackPacket.ReadsIff` | src/net/rtprtcp/rtcpfb_nack.hpp:101-119 | A number is read from some blocks if and only if one of them asks for it as section 6.2.1 of RFC 4585 says: it is the block's own, or the bit for its distance is set, the least significant for distance 1 |
| `NackPacket.WritesIff` | src/net/rtprtcp/rtcpfb_nack.hpp:65-99 | The map that is written has its bits the other way round: the least significant for distance 16, and no other bits |
| `NackPacket.NeighboursMisread` | src/net/rtprtcp/rtcpfb_nack.hpp:65-119 | Two neighbouring losses are never read back as such |
| `Jitter.Estimator.GenerateJitter` | src/webrtc_room/rtp_recv_session.cpp:105-128 | The filter step in 32-bit arithmetic, its jump threshold and its failure for a zero clock rate |
| `Jitter.FilterExact` | src/webrtc_room/rtp_recv_session.cpp:120-126 | From a state in range nothing overflows; the step is the exact one, stays within 0..16*449999 and moves towards 16*D without passing it |
| `Jitter.StaysInRange` | src/webrtc_room/rtp_recv_session.cpp:105-128 | So over any run of differences |
| `Jitter.Settles` | src/webrtc_room/rtp_recv_session.cpp:120-126 | Under a constant difference the state settles within 8 of 16*D, moves exactly as long as it has not, and stays |
| `Jitter.StreamSettles` | src/webrtc_room/rtp_recv_session.cpp:105-128 | A stream each of whose packets comes a fixed number of clock ticks early or late, counted from arrival times and timestamps, settles: the jitter reported is that number or one less |
| `Jitter.FirstIsIgnored` | src/webrtc_room/rtp_recv_session.cpp:109-112 | Without a packet before, a time or timestamp of 0 counting as none, nothing changes but what is remembered of the packet |
| `Jitter.JumpIsIgnored` | src/webrtc_room/rtp_recv_session.cpp:112-126 | A packet that strays by 450000 ticks or more changes nothing |
| `Jitter.BackwardsIsIgnored` | src/webrtc_room/rtp_recv_session.cpp:113-126 | Nor does one for which the clock has gone back by a tick or more |
| `Jitter.DiffersFromRfc3550` | src/webrtc_room/rtp_recv_session.cpp:120-126 | A step equals that of section A.8 of RFC 3550 plus one exactly when the state is 8 modulo 16 |
| `RtpRecvSession.Session.ReceiveRtpPacket` | src/webrtc_room/rtp_recv_session.cpp:38-67 | First packets bypass the loss tracking; refused ones change only sequence tracking; accepted ones are shown to the losses and to the jitter filter |
| `RtpRecvSession.Session.ReceiveRtxPacket` | src/webrtc_room/rtp_recv_session.cpp:69-103 | Empty, too short, unasked and asked-for retransmissions, each with its flag and state |
| `RtcSendRelay.Relay.AddPushInfo` | src/webrtc_room/rtc_send_relay.cpp:94-110 | Known streams keep their sessions; a new one gets a fresh session under both its numbers |
| `RtcSendRelay.Relay.SendRtpPacket` | src/webrtc_room/rtc_send_relay.cpp:57-92 | Goes to the session of its number, and out unchanged if and only if that accepts it |
| `RtcSendRelay.Relay.HandleNack` | src/webrtc_room/rtc_send_relay.cpp:203-245 | Requests reach the session of the media number only, and change nothing else |
| `RtcRecvRelay.Relay.AddVirtualPusher` | src/webrtc_room/rtc_recv_relay.cpp:61-82 | Every session belongs to an announced stream; known streams keep theirs |
| `RtcRecvRelay.Relay.HandleRtpPacket` | src/webrtc_room/rtc_recv_relay.cpp:119-171 | The room gets exactly what the session accepts, unwrapped, unrepeated and not empty, under the right pusher |
| `RelayRuns.StepKeeps` | src/webrtc_room/rtc_recv_relay.cpp:119-171 | Sends, arbitrary requests, deliveries repeated or reordered at will, and ticks keep the invariant of sender, wire and receiver |
| `RelayRuns.RecoveredIsGenuine` | src/webrtc_room/rtp_recv_session.cpp:69-103 | After any run, a forwarded retransmission is the one packet the sender sent under its number; the number was missing and unseen, and is neither afterwards |
| `RelayRuns.MediaIsGenuine` | src/webrtc_room/rtc_recv_relay.cpp:119-171 | A forwarded media packet is one that was sent, unchanged |
| `RelayRuns.NeverTwice` | src/webrtc_room/rtp_recv_session.cpp:82-89 | Once the loss tracking has seen a number, any later retransmission of it is flagged as repeated, forwarded to nobody and changes nothing |
| `RelayRuns.MissingIsRecoveredIff` | src/webrtc_room/rtp_send_session.cpp:89-137 | When a missing packet is still cached, a request for any numbers that contain its own puts its retransmission on the wire, and that is forwarded, as the packet was sent, if and only if the packet has a payload and its number is less than 3000 ahead of the newest, less than 1500 behind it, or the one on probation; else it is not forwarded at all |
| `RelayRuns.NewestAreCached` | src/webrtc_room/rtp_send_session.cpp:42-137 | After any run of consecutive sends with any requests in between, each of the newest 536 packets is still cached |
| `RelayRuns.NewestAreRecovered` | src/webrtc_room/rtp_send_session.cpp:89-137 | After any run of consecutive sends, wraps included, with any requests, losses and deliveries in between, one request that gets through, whatever else it asks for, and its answer recover a missing number among the newest 536 sent if and only if its packet has a payload and its number is within these bounds |
| `RelayRuns.NewestAreLetThrough` | src/webrtc_room/rtp_recv_session.cpp:38-103 | It is within them when the numbers sent do not wrap and the session's newest number is the loss tracking's |
| `RelayRuns.HalfIsNear` | src/webrtc_room/nack_generator.cpp:44-90 | If all numbers in use lie in one half of the circle, every delivery is within reach of the half-range comparison |
| `RelayRuns.RequestedThoughAccepted` | src/webrtc_room/rtp_recv_session.cpp:38-67 | After any run an accepted number is among the losses if and only if it is that of the session's first packet, lies strictly between the first and the newest number shown to the loss tracking, and was neither shown again nor dropped |
| `RelayRuns.FirstPacketBypasses` | src/webrtc_room/rtp_recv_session.cpp:41-49 | For instance when packets from both sides of the first one come next, the earlier first |
| `Timer.TimerInner.OnTimer` | src/utils/timer.cpp:66-102 | If callbacks start nothing that is due at once, and those that go on have a timeout, the pass ends, and its outcome is that of firing the first due entry, over and over, with whatever the callbacks start and stop in between |
| `Timer.TimerInner.RegisterTimer` | src/utils/timer.cpp:47-51 | The loop that looks for the place of the new entry gives the ordered insertion |
| `Timer.InsertPlaces` | src/utils/timer.cpp:47-51 | Ordered insertion puts the entry behind just those that are not due later, and changes nothing else |
| `Timer.TimerInner.UnregisterTimer` | src/utils/timer.cpp:52-60 | Removes exactly the entries of the timer |
| `Timer.TimerInner.StartTimer` | src/utils/timer.cpp:122-128 | A running timer is not registered again |
| `Timer.TimerInner.StopTimer` | src/utils/timer.cpp:130-136 | A stopped timer is not unregistered again |
| `Timer.FireDue` | src/utils/timer.cpp:74-101 | Every firing leaves fewer entries due if its callback starts nothing that is due at once and, going on, has a timeout: why the pass ends |
| `Timer.FireDueIff` | src/utils/timer.cpp:74-101 | A firing whose callback starts and stops nothing leaves fewer entries due if and only if the timer does not go on with a timeout of 0 |
| `Timer.NeverEndsIff` | src/utils/timer.cpp:74-101 | If all callbacks just go on, entries are due after any number of firings if and only if an entry is due whose timer has a timeout of 0 |
| `Timer.FireSoundIff` | src/utils/timer.cpp:74-101 | A firing keeps the map sorted, with one entry per timer, none sooner than a timeout after the timer last fired, if and only if the callback that says it goes on does not stop its own timer |
| `Timer.EndedInTuneIff` | src/utils/timer.cpp:86-100 | A timer whose callback says it does not go on counts as running just when it has an entry if and only if the callback stopped it; otherwise starting it again changes nothing |
| `Timer.PassFiresDue` | src/utils/timer.cpp:66-102 | Whatever callbacks do, a pass fires only entries that were there and due at its beginning, in the order of their times |
| `Timer.PassFiresOnce` | src/utils/timer.cpp:66-102 | And no timer twice, if none has two entries due at the beginning |
| `Timer.PassFiresAll` | src/utils/timer.cpp:66-102 | Whatever callbacks do, it fires every due entry whose timer no callback stops, and leaves only later ones |
| `Timer.PassSound` | src/utils/timer.cpp:66-102 | A pass keeps the map sound, for all callbacks that do not stop their own timer and say they go on |
| `Timer.FiringsAreSpaced` | src/utils/timer.cpp:66-102 | Over any run with such callbacks and a clock that does not go back, two firings of a timer are at least its timeout apart |
| `Timer.FiresOnTime` | src/utils/timer.cpp:47-128 | In any such run a timer that is started, and whose callback always goes on and that nobody stops, fires in the first pass at least its timeout after the start, in the first at least its timeout after that, and so on, and in no other pass, whatever else is started and stopped |
| `Timer.TimerInner.Initialize` | src/utils/timer.cpp:26-38 | The loop is running, and only that has changed |
| `Timer.TimerInner.Deinitialize` | src/utils/timer.cpp:40-46 | The loop is not running, and only that has changed |
| `JitterBuffer.FastJitterBuffer.PushRtpPacket` | src/webrtc_room/fast_jitterbuffer.cpp:68-136 | What a push delivers and keeps, for every verdict of any classifier |
| `JitterBuffer.FastJitterBuffer.TakeFollowing` | src/webrtc_room/fast_jitterbuffer.cpp:120-127 | The drain loop |
| `JitterBuffer.FastJitterBuffer.OnTimer` | src/webrtc_room/fast_jitterbuffer.cpp:39-66 | Releases, in order, the overdue packets up to the first, by number, that is not overdue, and expects what follows; `JitterRuns.ReleasedIff` says which |
| `JitterRuns.DeliveredOnce` | src/webrtc_room/fast_jitterbuffer.cpp:39-136 | Whatever the classifier, over any run every packet object is delivered at most once, only after it was pushed, and keys are the packets' numbers |
| `JitterRuns.NothingVanishes` | src/webrtc_room/fast_jitterbuffer.cpp:39-136 | A waiting packet stays or is delivered, unless one of its own number displaces it |
| `JitterRuns.ReleasedIff` | src/webrtc_room/fast_jitterbuffer.cpp:39-57 | A timer event delivers a packet if and only if it waits and no packet up to its number has waited for less than the delay, a packet from the future counting as very old |
| `JitterRuns.LowestIsYoung` | src/webrtc_room/fast_jitterbuffer.cpp:39-57 | Over any run, after a timer event the lowest number still waiting has waited for less than the delay |
| `JitterRuns.DrainedNumbers` | src/webrtc_room/fast_jitterbuffer.cpp:120-127 | What is drained has consecutive numbers, modulo 2^16, from the expected one on |
| `JitterRuns.DrainedMembers` | src/webrtc_room/fast_jitterbuffer.cpp:120-127 | And is exactly what no longer waits |
| `JitterRuns.DeliveredInOrder` | src/webrtc_room/fast_jitterbuffer.cpp:39-136 | With a proper classifier, within one cycle, delivered numbers strictly rise over the whole run, releases by the timer included |
| `JitterRuns.ExpectedIsIgnored` | src/webrtc_room/fast_jitterbuffer.cpp:90-136 | With the comparison in use a packet is ignored if and only if it has exactly the expected number |
| `JitterRuns.PushKeepsOrderIff` | src/webrtc_room/fast_jitterbuffer.cpp:90-136 | With the comparison in use, from a state in order, a new number below 65535 keeps what is delivered rising and below what waits if and only if it is not below the expected number, nor the one behind it while the expected one still waits |
| `JitterRuns.TimerKeepsOrder` | src/webrtc_room/fast_jitterbuffer.cpp:39-66 | A release by the timer always keeps it |
| `JitterRuns.InOrderIff` | src/webrtc_room/fast_jitterbuffer.cpp:39-136 | So over any run with new numbers below 65535 the order holds at the end if and only if every push met that condition |
| `JitterRuns.PerfectOrderLoses` | src/webrtc_room/fast_jitterbuffer.cpp:68-136 | Of packets arriving in perfect order, any number of wraps included, exactly the second is lost and every later one numbered 1 |
| `Inet4.InetNtop4` | 3rdparty/libuv/src/inet.c:48-59 | Writes the dotted text digit by digit, which reads back as the address; fails exactly when text and terminator do not fit |
| `Inet4.InetPton4` | 3rdparty/libuv/src/inet.c:175-211 | The scanner's result |
| `Inet4.Parse4Iff` | 3rdparty/libuv/src/inet.c:48-211 | A text parses, to an address, if and only if it is the printed text of that address |
| `Inet4.ParsePrint4` | 3rdparty/libuv/src/inet.c:48-211 | Parsing what is printed gives the address |
| `Inet4.TextIs` | 3rdparty/libuv/src/inet.c:48-59 | The text is the four numbers in decimal, without leading zeros, with dots between them |
| `IpAddress.IsIPv4` | src/utils/ipaddress.hpp:78-117 | The check's result |
| `IpAddress.SameLanguage` | src/utils/ipaddress.hpp:78-117 | The check and the parser accept the same texts: the printed texts of addresses |
| `Inet6.BestRun` | 3rdparty/libuv/src/inet.c:83-106 | Finds the leftmost longest run of at least two zero words, or that there is none (section 4.2 of RFC 5952) |
| `Inet6.Words` | 3rdparty/libuv/src/inet.c:80-82 | The eight words of the address |
| `Inet6.Format` | 3rdparty/libuv/src/inet.c:111-137 | The loop writes the joined form with the run as two colons and an embedded IPv4 address where there is one; it never exceeds the 46-byte buffer |
| `Inet6.InetNtop6` | 3rdparty/libuv/src/inet.c:62-143 | The text for the best run, or failure exactly when text and terminator do not fit |
| `Inet6.PrintsRfc5952` | 3rdparty/libuv/src/inet.c:62-143 | What is printed is, for every address, the text of RFC 5952, as written down independently in `Rfc5952`: lower case, no leading zeros, the first longest run of zero fields as two colons, and the last four bytes in decimal just for the forms that embed an IPv4 address |
| `Inet6.TextIsUnique` | 3rdparty/libuv/src/inet.c:62-143 | An address has one text |
| `Inet6Parser.InetPton6` | 3rdparty/libuv/src/inet.c:214-298 | The parser's result, over its buffer and pointers |
| `Inet6Language.ParseIff` | 3rdparty/libuv/src/inet.c:214-298 | A text is read, as an address, if and only if it denotes that address by section 2.2 of RFC 4291, as written down independently in `Rfc4291`: fields of one to four digits of either case, two colons once for at least one zero field, an IPv4 address in place of the last two |
| `Inet6Parser.Spread6` | 3rdparty/libuv/src/inet.c:278-293 | The overlapping move by hand opens the gap of zeros at the colons |
| `Inet6Parser.UvInetPton6` | 3rdparty/libuv/src/inet.c:146-172 | A zone is cut off; too long a text before it is refused |
| `Inet6Parser.ParsePrint6` | 3rdparty/libuv/src/inet.c:62-298 | Reading back the printed text gives the address, for every address |
| `Inet6Parser.ParsePrintRun` | 3rdparty/libuv/src/inet.c:62-298 | Even whichever run of zero words is written short |
| `Inet6Parser.ZoneIgnored` | 3rdparty/libuv/src/inet.c:146-172 | The text of any address with any zone appended fits and is read as the address |
| `Utf8.DecodeEncode` | 3rdparty/libuv/src/idna.c:26-103 | Decoding undoes the encoding of section 3 of RFC 3629, for every scalar value, whatever follows |
| `Utf8.DecodeEncodeAll` | 3rdparty/libuv/src/idna.c:26-103 | And for whole texts |
| `Utf8.DecodeCut` | 3rdparty/libuv/src/idna.c:26-103 | A character decodes the same when the text is cut behind it, although a cut inside it may change its reading |
| `Utf8.ReachesSlice` | 3rdparty/libuv/src/idna.c:270-293 | A piece of a text between two characters decodes to just the characters read there |
| `Utf8.DecodesIff` | 3rdparty/libuv/src/idna.c:26-103 | A text is read as starting with a character in `n` octets if and only if these carry the digits of its shortest encoding, its lead octet is one for `n` octets or for more than there are, and the top bits of the others cancel out; that they are that encoding is not asked |
| `Punycode.ReadsVarInt` | 3rdparty/libuv/src/idna.c:214-240 | The decoder of RFC 3492 reads back every variable-length integer |
| `Punycode.RunInsertsAll` | 3rdparty/libuv/src/idna.c:175-268 | Inserting at the counted places rebuilds the text |
| `Punycode.DecodeEncoded` | 3rdparty/libuv/src/idna.c:142-268 | The decoder of section 6.2 of RFC 3492, written down independently in `Rfc3492` with the numbers of its section 5, maps the encoding of every text back to it |
| `Punycode.Leap` | 3rdparty/libuv/src/idna.c:180-200 | Counting in leaps gives the same counts as counting one step at a time |
| `Idna.WriteVarInt` | 3rdparty/libuv/src/idna.c:214-240 | The digit loop writes the variable-length integer, or as much as fits |
| `Idna.AdaptBias` | 3rdparty/libuv/src/idna.c:242-258 | The in-place arithmetic is the bias adaptation of section 6.1 of RFC 3492 |
| `Idna.NextPoint` | 3rdparty/libuv/src/idna.c:181-191 | The least code point not below the current one |
| `Idna.LeapTo` | 3rdparty/libuv/src/idna.c:193-200 | The leap, refused only if some count of the label exceeds 32 bits |
| `Idna.LeapFits` | 3rdparty/libuv/src/idna.c:196-197 | The division is an exact check that the 32-bit product and sum do not overflow |
| `Idna.Scan` | 3rdparty/libuv/src/idna.c:202-264 | One scan writes the counts of all occurrences, refused only if a count exceeds 32 bits |
| `Idna.ToAsciiLabel` | 3rdparty/libuv/src/idna.c:105-268 | Refused as malformed or as too big exactly when it is; else writes the label's ASCII form, or as much of it as fits |
| `Idna.LabelDecodes` | 3rdparty/libuv/src/idna.c:142-268 | A label with other than ASCII characters is written as `xn--` and a text that the decoder of RFC 3492 maps to it; an ASCII label as itself |
| `Idna.LabelIsLower` | 3rdparty/libuv/src/idna.c:142-268 | In that text nothing that encodes other than ASCII characters is in upper case |
| `Idna.UmlautLabel` | 3rdparty/libuv/src/idna.c:142-268 | For instance the label of the one character U+00FC is written as `xn--tda` |
| `Idna.SplitsAtDots` | 3rdparty/libuv/src/idna.c:270-293 | A host name is cut into labels at just the characters U+002E, U+3002, U+FF0E and U+FF61 |
| `Idna.OverflowsIff` | 3rdparty/libuv/src/idna.c:193-207 | A label is too big exactly when some count of its Punycode form exceeds 32 bits |
| `Idna.ToAscii` | 3rdparty/libuv/src/idna.c:270-315 | A whole host name: succeeds exactly when decodable and no label overflows, then writes all labels with full stops and a zero |
| `Nal.AnnexB2Nalus` | src/format/h264_h265_header.cpp:34-75 | The pieces of the stream at its start codes |
| `Nal.Avcc2Nalus` | src/format/h264_h265_header.cpp:123-156 | The units with start codes, refusal of too long ones, and where the source reads past the end |
| `Nal.SplitConcat` | src/format/h264_h265_header.cpp:34-75 | Nothing is lost: the pieces add up to the stream from its first start code on |
| `Nal.UnframeFrame` | src/format/h264_h265_header.cpp:123-156 | Reading a framed list gives its units, with start codes, in order |
| `Nal.SplitJoinedIff` | src/format/h264_h265_header.cpp:34-75 | Splitting joined units gives them back if and only if no unit contains a start code |
| `Nal.FramesRoundTrip` | src/format/h264_h265_header.cpp:34-156 | From lengths to start codes and back to the same list |
| `Nal.RefusedOrOverrun` | src/format/h264_h265_header.cpp:123-156 | A unit announced, highest byte first, as longer than ten million bytes is refused, and one that is cut off is read past the end |
| `Nal.RemoveEmulationPreventionBytes` | src/format/h264_h265_header.cpp:487-505 | The bytes left in the output buffer |
| `Nal.RemovesFirst` | src/format/h264_h265_header.cpp:487-505 | What is removed is the 3 of the first place where 3 follows two zeros, and so on behind it; without such a place the bytes stay as they are |
| `Nal.UnprotectProtect` | src/format/h264_h265_header.cpp:487-505 | Removal undoes insertion, for every byte string |
| `Nal.ProtectedClean` | src/format/h264_h265_header.cpp:487-505 | A protected string contains no start code |
| `Nal.ProtectedUnitsSplit` | src/format/h264_h265_header.cpp:34-75 | A stream of protected units splits back into them, whatever they carry |
| `Bits.BitReader.ReadBits` | src/format/h264_h265_header.cpp:514-532 | The number in the next bits; nothing is consumed when there are too few |
| `Bits.BitReader.ReadUe` | src/format/h264_h265_header.cpp:534-554 | The Exp-Golomb code at the current bit |
| `Bits.TakeUeBits` | src/format/h264_h265_header.cpp:534-554 | A code written anywhere in a bit string is read back, for every value up to 2^32 - 2 |
| `Bits.TakeUeLong` | src/format/h264_h265_header.cpp:534-554 | With 32 leading zeros the value wraps, with more it is 0, and when the data ends among the zeros they count as if a one had followed |
| `Bits.TakeBytes` | src/format/h264_h265_header.cpp:514-532 | Reading whole bytes gives their number, highest byte and bit first |
| `HevcSps.ParseHevcSpsFinal` | src/format/h264_h265_header.cpp:556-669 | The parse over the cleaned bits, failing exactly for fewer than 15 bytes |
| `HevcSps.ParsesSps` | src/format/h264_h265_header.cpp:577-665 | Every parameter set, serialised with each sub-layer's flags in front of its data, is parsed to its cropped size |
| `HevcSps.StandardLayersMisread` | src/format/h264_h265_header.cpp:611-626 | With the flags of sub-layers where section 7.3.3 of ITU-T H.265 has them, a set of one sub-layer for which nothing is present, with a width of 1920, is parsed to no size at all |
| `HevcSps.SpsRoundTrip` | src/format/h264_h265_header.cpp:556-669 | Also after protection |
| `HevcSps.CroppedIsExact` | src/format/h264_h265_header.cpp:660-665 | The 32-bit result is the true size whenever that is one |
| `HevcSps.CroppedWraps` | src/format/h264_h265_header.cpp:660-665 | In any case it is a 32-bit number that agrees with that modulo 2^32 |
| `HevcSps.HeaderUnprotected` | src/format/h264_h265_header.cpp:577-578 | Protecting a unit is protecting what follows its two header bytes |
| `Crc.GetCrc32` | src/utils/crc.cpp:96-103 | The table loop, for any table |
| `Crc.Incremental` | src/utils/byte_crypto.cpp:100-106 | The checksum of a concatenation continues from that of the first part |
| `Crc.BurstDetected` | src/utils/crc.cpp:96-103 | If no two entries of the table share their top byte, messages that differ only inside four consecutive bytes have different checksums |
| `LinearRegister.FeedPlus` | src/utils/crc.cpp:96-103 | In any linear shift register, feeding bits one by one is adding them all first |
| `CrcReflectedTable.EntryIs` | src/utils/byte_crypto.cpp:14-48 | Each of the 256 constants is the remainder of its index |
| `CrcReflected.RunIsSerial` | src/utils/byte_crypto.cpp:89-106 | The table loop is the bit-serial reflected CRC-32, for every message and start |
| `CrcReflected.GetMessageCrc32` | src/utils/byte_crypto.cpp:89-98 | From all ones, complemented at the end, as section 8.1.1.6.2 of ITU-T V.42 has it |
| `CrcReflected.ReflectedBurst` | src/utils/byte_crypto.cpp:100-106 | No burst of up to four bytes goes unnoticed |
| `CrcSwappedTable.EntryIs` | src/utils/crc.cpp:5-49 | Each of the 256 constants of `CRC_32_IEEE` is the byte-swapped remainder, highest bit first |
| `CrcSwapped.RunIsSerial` | src/utils/crc.cpp:5-103 | With that table the loop computes the CRC that takes the highest bit first, bytes reversed |
| `CrcSwapped.IeeeBurst` | src/utils/crc.cpp:5-103 | It misses no burst of up to four bytes either |

## Left out

- User names, WHIP flags, pusher descriptions, text messages and speech recognition results: a cluster message keeps the room and the users it is about.
- Deletion of rooms through WHIP, room expiry, weak session references collected by Python, and nodes that restart: a node or the center keeps its rooms.
- PilotRoom.Room.HandlePush: does not keep the pushers themselves, because their propagation to nodes is not claimed.
- SfuRoom.Room.HandleNewPusher: does not keep the pushers themselves.
- SfuRoom.Room.OnTimer: does not say which clients are told of each user that is erased, and leaves out pushers and relays, because these carry no cluster state.
- ClusterClients.ToldExactly: concerns news of users, not of pushers, disconnects and reconnects, of which the rows of `SfuRoom` say for each step whom a node tells.
- Timer.TimerInner.OnTimer: covers only passes that end by the condition in its row; `Timer.NeverEndsIff` shows why one is needed.
- JitterRuns.InOrderIff: concerns new numbers below 65535, because across the wrap rising numbers are not what order means.
- The link from a node to the center keeps the order of sending; the other way, any order is allowed, which is more than the code does.
- Cluster.NewsReachesEveryNode: excludes, for a session that dropped an overdue response, the users listed there, until the session asks to join that room once more or the user joins again; and users known only from a push. For these it is false, as the two runs named above show.
- RTP header extensions, timestamps other than for jitter, RTCP sender and receiver reports, and statistics.
- The 64-bit width of the discard counter and of clocks.
- NackRuns.LossesAreExact: assumes that packets lie within half the circle of the newest one, because across the wrap the code records no gap at all.
- RelayRuns.RecoveredIsGenuine: assumes the same, and that the sender uses each number once; `RelayRuns.HalfIsNear` gives a condition on the sender's numbers that suffices.
- Packets given to the sending relay under the number of the retransmission stream itself.
- RTP relays: several streams at once run independently, so whole runs are those of one stream.
- Closing and destroying objects, and freeing packets: objects here are never deallocated.
- Heap.Heap.Insert: assumes fewer than 2^32 - 1 nodes, the width of the counter.
- Idna.ToAsciiLabel: assumes labels of fewer than 2^32 - 1 bytes, the width of its counters; the code decodes a label anew in each loop, which gives the same code points, and the model keeps them.
- Nal.Avcc2Nalus: where the code reads past the end of malformed data the model only says so.
- Bits.BitReader.ReadUe: with 31 or 32 leading zeros the shifts of the code are undefined or of a signed number; here they wrap.
- `AnnexB2Avcc`, whose lengths include the following start code, so that a round trip through it fails.
- SDP, DTLS, SRTP, STUN, sockets, websockets, HTTP, logging, FLV and RTMP, and Opus and AAC framing.
