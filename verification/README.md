# Verified models of the inter-process and network exercises

The repository is a C training course. Seven of its programs hold a protocol, shared state or arithmetic worth
proving; this project models them in Dafny and proves what they are for.

- **Shared segment** (`SegmentMemory`, `SharedSegment`, `SegmentRuns`, `SegmentSafety`, `SegmentInterrupted`,
  `SegmentProgress`): one producer carves blocks of
  varying size out of a 4096-byte segment and links them by offset, any number of consumers find the first unprocessed
  block, take its minimum and maximum and mark it by zeroing its element count. `SharedSegment` holds the loops over an
  array of 4-byte words (a `size_t` is two words, the low half first); `SegmentRuns` is the system of all processes in
  every interleaving of steps, each one semaphore operation, one field access, or a test of a field together with the
  access it decides on. `Kind` tells the System V program from its POSIX
  twin, which keeps the segment size in the header and never removes the semaphore while others run.
- **Numbered echo over raw UDP** (`InternetChecksum`, `UdpPacket`, `EchoServer`, `EchoClient`): the checksum of section 1
  of RFC 1071 over the pseudo-header of RFC 768, the datagram builder, the sniffer's parser, the server's table of 128
  clients, the client's wait for its reply. A little-endian host is assumed.
- **Publish/subscribe broker** (`BrokerText`, `Broker`, `BrokerRuns`): the texts clients print and the broker scans, the
  two tables, and the whole system over one queue of typed messages.
- **Taxi dispatcher** (`TaxiDriver`, `TaxiDispatcher`, `TaxiRuns`): a timer per driver, the dispatcher's table, and both
  with their FIFOs and the clock in every interleaving.
- **TCP relay and file transfer** (`ByteStreams`, `RelayServer`, `RelayRuns`, `FileTransfer`, `FileRelay`): whole packets
  over connections that split and interrupt calls as they like, the relay server, files sent in 1024-byte chunks, and a
  file's whole way from one client's bytes to another client's disk.
- **Two-process copier** (`CopierRuns`, `Copier`): ready byte, header and data over a bounded pipe.
- **Two-party chat** (`ChatRuns`, `ChatLines`): two threads a process, two bounded priority queues, an exit message that overtakes.

Where the code does not do what its callers might expect, the model follows the code and the exact condition is proved:

- two folds give the Internet checksum of every buffer of a length exactly up to 131076 bytes
  (`InternetChecksum.RightUpTo131076`); every UDP datagram is far below;
- RFC 768 asks for a computed checksum of zero to be sent as all ones, since a zero field says that there is none; the
  code sends the zero. It happens exactly if the word sum of pseudo-header, header and payload is a multiple of 65535
  (`UdpPacket.ZeroChecksumExactly`), and between any two endpoints for some payload of two bytes
  (`UdpPacket.ZeroChecksumHappens`);
- a packet without link header has its UDP header misplaced exactly if its source address begins with 8.0 or 129.0
  (`UdpPacket.NoLinkHeaderFound`, and for packets with data `UdpPacket.NoLinkHeaderExactly`);
- publishing under the topic another client asks for gets that client a copy exactly if a comma ends the topic within
  the publication's 512-byte buffer, be it the one printed behind it or one of its own, and the subscription is in the
  table already or finds one of the 128 places and has a first 63 characters without comma and white space, and at least
  one (`Broker.SubscriberHeardExactly`); an over-long topic without such a comma is dropped (`BrokerText.SendDropped`);
- the reports are one for one and in order true reports about the blocks generated in every sequence of moves with at most
  n failing lock attempts on a live semaphore if and only if n is 0 (`SegmentInterrupted.ExactlyOnceExactly`); a single
  ignored failure suffices for a block to be reported twice (`SegmentInterrupted.ExactlyOnceNeedsTheLock`);
- server and client of the echo ignore how many bytes they received. All they read lies in the n bytes received exactly if
  these hold the ports of a UDP packet and, of one whose payload they copy, the length field and, that being at least 8,
  the payload if there is any (`EchoServer.ReadsInsideExactly`, `EchoClient.ClientReadsInsideExactly`); then what the
  buffer held before makes no difference (`EchoServer.OnlyReceivedMatters`);
- a client that closes in the middle of a packet has exactly one more packet relayed, which begins with the unfinished
  one and is filled up with old buffer contents (`RelayRuns.WholeStreamExactly`);
- a copy is named after its source exactly if the source's name has at most 255 bytes (`CopierRuns.CopyNamedExactly`);
- a file arrives unchanged exactly if in every chunk nothing but NULs stands behind the first NUL and byte 1023, if
  there is one, is NUL (`FileTransfer.FileArrivesExactly`).

## Model

| member | source | states |
|---|---|---|
| `SharedSegment.Segment.constructor` | module3/task04/producer_logic.c:49-54 | the header set-up leaves an empty chain, a free offset right behind the header and a cleared done flag |
| `SharedSegment.Segment.FindUnprocessed` | module3/task04/consumer_logic.c:37-50 | the scan ends and returns the offset of the first unmarked block, or the null offset if every block is marked |
| `SharedSegment.Segment.MinMax` | module3/task04/consumer_logic.c:53-64 | the two numbers are integers of the block and bound all of them |
| `SharedSegment.Segment.MarkProcessed` | module3/task05/consumer_logic.c:72 | zeroing the count marks the first unmarked block and no other, and keeps chain, header and done flag |
| `SharedSegment.Segment.ConsumeVisit` | module3/task04/consumer_logic.c:33-85 | one locked visit reports the first unprocessed block truly and marks it; with none left it writes nothing and exits exactly if generation is over |
| `SharedSegment.Segment.AllProcessed` | module3/task04/producer_logic.c:122-132 | the waiting producer's scan says yes exactly if every block generated is marked |
| `SharedSegment.Segment.FillData` | module3/task04/producer_logic.c:90-93 | the integers land behind the block header, all other words stay |
| `SharedSegment.Segment.WriteBlock` | module3/task04/producer_logic.c:83-94 | filling in a block behind the chain leaves chain, header and done flag alone |
| `SharedSegment.Segment.HookBlock` | module3/task04/producer_logic.c:96-101 | the new offset is stored where the list ends, the header for an empty list and the last block otherwise, and nowhere else |
| `SharedSegment.Segment.LinkBlock` | module3/task04/producer_logic.c:96-104 | the chain grows by exactly the written block, the free offset moves behind it |
| `SharedSegment.Segment.SetDone` | module3/task04/producer_logic.c:76-78 | the done flag is set, the chain untouched |
| `SharedSegment.Segment.ConsumeVisits` | module3/task04/consumer_logic.c:33-85 | so many visits process one block each as long as there is one |
| `SharedSegment.Segment.GenerateRound` | module3/task05/producer_logic.c:55-91 | a block is appended exactly if it fits, and uses up free bytes; otherwise the loop stops with the flag set, fewer than 76 bytes unused and 53 to 113 (112) blocks |
| `SharedSegment.Segment.RunGenerationLoop` | module3/task04/producer_logic.c:67-107 | whatever blocks are drawn and however many consumer visits fall between the rounds, the loop ends with the drawn blocks in order, within the yield bounds, and as many blocks processed as the visits come to |
| `SegmentMemory.BlocksDisjoint` | module3/task04/producer_logic.c:83-104 | two blocks of the chain share no word |
| `SegmentMemory.ChainMark` | module3/task04/consumer_logic.c:68 | writing zero over one count keeps all other blocks' words and makes the marked prefix one longer |
| `SegmentMemory.ChainAppend` | module3/task04/producer_logic.c:96-103 | hooking in a fresh block keeps every earlier block, changes one link from null to the new offset and marks nothing |
| `SegmentMemory.LayoutAppend` | module3/task04/producer_logic.c:83-104 | hooking in and advancing the free offset keep the whole layout: tiles, links, header, done flag |
| `SegmentMemory.WalkVisitsAll` | module3/task04/consumer_logic.c:42-50 | following the links from any block meets every later block once, in order, with its count, and ends at offset 0 |
| `SegmentMemory.YieldBounds` | module3/task04/common.h:15-29 | once a block of at most 15 integers does not fit, fewer than 76 bytes are unused and there are 53 to 113 (with the larger header 112) blocks |
| `SegmentSafety.StepKeeps` | module3/task04/consumer_logic.c:33-85 | the invariant over memory, semaphore and all program counters survives every step of every process |
| `SegmentSafety.ExactlyOnceInOrder` | module3/task04/producer_logic.c:67-107 | in every interleaving the i-th report is about the i-th block generated, with its true count, minimum and maximum; the links meet exactly the generated blocks, marked exactly as far as reported |
| `SegmentSafety.SemaphoreConserved` | module3/task04/consumer_logic.c:34-83 | while the semaphore exists, its value plus the number of processes inside a critical section is 1 |
| `SegmentSafety.QuietForever` | module3/task04/producer_logic.c:117-149 | from the moment the producer has seen everything processed, every count in memory is zero, the done flag is set, and nobody ever writes the segment again, even with the semaphore destroyed |
| `SegmentSafety.RemovedExactly` | module3/task04/producer_logic.c:144-149 | in every interleaving the semaphore is gone exactly when the System V producer has ended; the POSIX program never removes it while others may run |
| `SegmentSafety.RemovedConsumersExit` | module3/task04/consumer_logic.c:34-83 | after the semaphore is destroyed every running consumer can take its next step, each brings it nearer its exit, no other process holds it back, and none writes |
| `SegmentSafety.RemovedConsumerHasExited` | module3/task04/consumer_logic.c:34-83 | in any continuation of a run after the removal, a consumer that got to take 6 steps more than there are blocks has exited, whatever the others did |
| `SegmentProgress.RemovedUnderConsumer` | module3/task04/producer_logic.c:144-145 | at the System V cleanup a consumer can still have started, and then finds the semaphore destroyed |
| `SegmentProgress.CanAlwaysFinish` | module3/task04/consumer_logic.c:33-85 | from every state of every run the processes can go on until producer and all consumers have ended, with the segment full and every block reported |
| `SegmentInterrupted.RegularRun` | module3/task04/consumer_logic.c:33-85 | every run is a sequence of moves without a failing lock attempt |
| `SegmentInterrupted.RunOfMoves` | module3/task04/consumer_logic.c:33-85 | every sequence of moves without a failing lock attempt is a run |
| `SegmentInterrupted.FailedLockReportsTwice` | module3/task04/consumer_logic.c:34-70 | whenever a block is unprocessed, the semaphore free and two consumers are about to take it, moves with exactly one failing attempt let both report the block |
| `SegmentInterrupted.ExactlyOnceNeedsTheLock` | module3/task04/consumer_logic.c:34-70 | from the very start, moves with exactly one failing attempt report the only block twice |
| `SegmentInterrupted.ExactlyOnceExactly` | module3/task04/consumer_logic.c:33-85 | true reports, one for one and in order, for all moves with at most n failing attempts, of producer or consumers, if and only if n is 0 |
| `SegmentInterrupted.ProducerBreaksIn` | module3/task05/producer_logic.c:52-102 | a failing attempt of the producer lets it into its section as if it had got the semaphore |
| `SegmentSafety.GenerationYield` | module3/task05/producer_logic.c:57-89 | the yield bounds hold in every interleaving, for both programs |
| `SegmentSafety.RefinesQueue` | module3/task05/consumer_logic.c:39-88 | every step is a move of a queue with a processed counter (append while open, process the first unprocessed, close) or invisible in it; free bytes and unprocessed blocks go down lexicographically |
| `SegmentSafety.NoDeadlock` | module3/task04/producer_logic.c:110-142 | unless all have ended, some process can move |
| `SegmentSafety.InsideSegment` | module3/task04/consumer_logic.c:42-68 | no process ever touches a word outside the segment, in every interleaving |
| `SegmentSafety.TouchesNoOther` | module3/task04/consumer_logic.c:36-75 | the words counted as touched really are all: a step leaves every other word as it is, and what it does depends on no other word |
| `InternetChecksum.CalculateChecksum` | module3/task09/utils.c:9-29 | the loop, the odd byte, two folds and the complement of the sum of the buffer's words |
| `InternetChecksum.TwoFoldsExact` | module3/task09/utils.c:24-25 | two folds give the canonical one's complement sum exactly if the second one carries no further |
| `InternetChecksum.RightUpTo131076` | module3/task09/utils.c:14-28 | the result is the complement of the one's complement sum (section 1 of RFC 1071) for all buffers of a length if and only if that is at most 131076 |
| `InternetChecksum.ByteOrderIndependent` | module3/task09/utils.c:14-28 | host-order words stored in host order give the bytes of the network-order definition (section 2(B) of RFC 1071) |
| `InternetChecksum.ReceiverSeesAllOnes` | module3/task09/utils.c:46-66 | with the checksum stored over its zero field the sum over everything is 0xFFFF |
| `UdpPacket.BuildUdpPacket` | module3/task09/utils.c:32-70 | the buffer holds ports, length, checksum and payload; what lies behind the packet is untouched |
| `UdpPacket.DatagramVerifies` | module3/task09/utils.c:48-66 | for every datagram the receiver's sum over pseudo-header, header and data is 0xFFFF (RFC 768, "Fields"), the pseudo-header being addresses, zero, protocol and length byte by byte |
| `UdpPacket.ZeroChecksumExactly` | module3/task09/utils.c:66 | the checksum field is zero if and only if the word sum of pseudo-header, header and payload is a multiple of 65535 |
| `UdpPacket.ZeroChecksumHappens` | module3/task09/utils.c:66 | between any two endpoints some payload of two bytes gives a zero checksum field |
| `UdpPacket.ChecksumBytesInNetworkOrder` | module3/task09/utils.c:66 | the stored checksum bytes are those of the network-order definition |
| `UdpPacket.ParsedPacket.ReadLink` | module3/task08/packet_processor.c:9-37 | plain Ethernet, one 802.1Q tag or no link header: where the IPv4 header is and which addresses are reported |
| `UdpPacket.ParsedPacket.ReadTransport` | module3/task08/packet_processor.c:53-67 | ports in network order; the payload is reported only if all of it is in the buffer |
| `UdpPacket.ParsedPacket.ParseUdpPacket` | module3/task08/packet_processor.c:9-71 | accepts exactly the buffers with a readable IPv4/UDP packet and reports its addresses, ports and payload; a rejected buffer changes at most the MAC fields |
| `UdpPacket.AcceptsExactly` | module3/task08/packet_processor.c:9-71 | in terms of bytes: exactly which buffers are accepted and what is reported of each, truncated payloads included |
| `UdpPacket.BuildThenParse` | module3/task08/packet_processor.c:9-71 | whatever the framing, the IP options and the padding, parsing a built datagram recovers addresses, ports and payload |
| `UdpPacket.NoLinkHeaderFound` | module3/task08/packet_processor.c:12-50 | without a link header, and whatever follows, the UDP header is found where it is if and only if the source address does not begin like one of the two Ethernet types |
| `UdpPacket.NoLinkHeaderExactly` | module3/task08/packet_processor.c:12-67 | the same for the payload of a packet with data |
| `EchoServer.Server.constructor` | module3/task09/server_logic.c:12-15 | an empty table for the empty history |
| `EchoServer.Server.FindOrCreateClient` | module3/task09/server_logic.c:17-31 | the index of the endpoint's record, appended with count 0 if it is new and there is room, -1 if not |
| `EchoServer.Server.ResetClient` | module3/task09/server_logic.c:33-44 | the endpoint's count becomes 0, nothing else changes |
| `EchoServer.Server.HandleMessage` | module3/task09/server_logic.c:112-117 | the number is the one the whole history calls for, and the table stays the one the history calls for |
| `EchoServer.Server.HandleShutdown` | module3/task09/server_logic.c:105-108 | the table stays the one the history, now with a shutdown, calls for |
| `EchoServer.Server.ProcessIncomingPacket` | module3/task09/server_logic.c:74-121 | of the whole receive buffer: other protocols and ports change nothing; a shutdown notice is not answered; a message is answered to its sender with its text and the number the whole history calls for |
| `EchoServer.ReadsInsideExactly` | module3/task09/server_logic.c:77-99 | all the server reads lies in the n bytes received if and only if these hold the ports of a UDP packet and, for its port, the length field and, that being at least 8, the payload if there is any |
| `EchoServer.StaysInBufferExactly` | module3/task09/server_logic.c:93-98 | the server never leaves its buffer if and only if, of a packet to its port, the length field is at least 8 and ends within it |
| `EchoServer.ReadsDecide` | module3/task09/server_logic.c:74-121 | the positions counted as read decide event and answer: a buffer that agrees on them gives the same |
| `EchoServer.OnlyReceivedMatters` | module3/task09/server_logic.c:74-99 | if the bytes received hold the fields looked at, what the buffer held before makes no difference |
| `EchoServer.ReceivedAnswerFits` | module3/task09/server_logic.c:50-55 | the answer to a packet received as far as its fields say fits the send buffer |
| `EchoServer.SendReply` | module3/task09/server_logic.c:47-71 | the reply carries text, blank and number back to the sender, which can be read off its bytes |
| `EchoServer.CountedAgrees` | module3/task09/server_logic.c:112-117 | counting in the table a history calls for gives the table and number of the longer history, full table included |
| `EchoServer.ResetAgrees` | module3/task09/server_logic.c:33-44 | resetting in the table a history calls for gives the table of the history with the shutdown |
| `EchoServer.SinceLastShutdown` | module3/task09/server_logic.c:104-117 | the count is the number of messages behind the last shutdown, whatever came before it |
| `EchoServer.SendersUnique` | module3/task09/server_logic.c:17-31 | no endpoint is registered twice |
| `EchoServer.SendersExactly` | module3/task09/server_logic.c:17-31 | the endpoints registered, as far as there is room, are exactly those that ever sent a message |
| `EchoServer.SendersGrow` | module3/task09/server_logic.c:23-28 | they are in the order of their first messages |
| `EchoServer.EchoNumberFromStart` | module3/task09/server_logic.c:112-117 | never having shut down, the i-th endpoint to send hears one more than its messages so far if i is below 128, and 0 otherwise |
| `EchoServer.EchoNumberAfterShutdown` | module3/task09/server_logic.c:104-117 | after a shutdown it hears one more than its messages since |
| `EchoServer.OthersIgnored` | module3/task09/server_logic.c:80-91 | a built datagram is ignored if and only if it was not sent to the server's port |
| `EchoServer.NoticeExactly` | module3/task09/server_logic.c:97-108 | it is taken for the shutdown notice of its sender if and only if its text up to the first NUL is the notice's, and for a message of its sender otherwise |
| `EchoServer.ReplySays` | module3/task09/server_logic.c:50-52 | byte by byte a reply is the text, a blank and the number in decimal without leading zeros |
| `EchoServer.EchoRoundTrip` | module3/task09/server_logic.c:77-120 | a client's message arrives as that client's, and the reply reads at the client's port as the text and the number, byte by byte |
| `EchoServer.ReplyTextUnique` | module3/task09/server_logic.c:50-52 | text and number can be read back from a reply: equal replies have equal texts and numbers |
| `EchoClient.WaitForServerReply` | module3/task09/client_logic.c:41-77 | reports the first packet between the two ports among the first five receive calls, and gives up exactly if there is none |
| `EchoClient.ClientReadsInsideExactly` | module3/task09/client_logic.c:52-67 | all the client reads lies in the n bytes received if and only if these hold the ports of a UDP packet and, for a reply, the length field and, that being at least 8, the payload if there is any; with n the buffer size this is when it stays in its buffer |
| `EchoClient.ClientReadsDecide` | module3/task09/client_logic.c:52-71 | the positions counted as read decide what the client reports |
| `EchoClient.ReplyWithin` | module3/task09/client_logic.c:45-75 | the loop returns the first reply within any number of tries |
| `EchoClient.FirstOfExactly` | module3/task09/client_logic.c:45-76 | there is a first one exactly if some attempt succeeds, and it is that of the earliest such attempt |
| `EchoClient.ClientHearsItsNumber` | module3/task09/client_logic.c:55-71 | after any history the server's reply passes the client's filter and reads as its text with the number that history calls for, byte by byte |
| `EchoClient.RepliesExactly` | module3/task09/client_logic.c:55-71 | a built datagram is taken for the reply, and its text reported, if and only if it comes from the server's port and goes to the client's |
| `BrokerText.SubscribeParsed` | module3/task02/subscriber.c:37 | for every pid and topic whatsoever: what the broker's scan makes of a printed subscription, truncation included |
| `BrokerText.UnsubscribeParsed` | module3/task02/broker.c:157-163 | the same for an unsubscription |
| `BrokerText.WordIsCut` | module3/task02/broker.c:151 | the 63-character word scan returns the topic's first 63 characters exactly if none of them is white space and there is one |
| `BrokerText.UnsignedScanned` | module3/task02/broker.c:151 | the number scan skips white space and reads all digits |
| `BrokerText.SignedScanned` | module3/task02/broker.c:160 | and heeds a sign |
| `BrokerText.WordScanned` | module3/task02/broker.c:151 | the word scan skips white space, ends at the next one and cuts to 63 characters |
| `BrokerText.SendRead` | module3/task02/broker.c:166-188 | for every topic and line whatsoever: what the broker makes of a printed publication, truncation included |
| `BrokerText.SendTopic` | module3/task02/broker.c:170-187 | every publication is routed by its topic up to a comma, cut to 63, with its pid, or dropped, the latter exactly if no comma ends the topic within the buffer |
| `BrokerText.SendParsed` | module3/task02/publisher.c:58 | a publication whose topic has no comma and fits arrives with its pid, its topic cut to 63 and its line, commas included, as far as it fits |
| `BrokerText.SendDropped` | module3/task02/broker.c:170-175 | for every topic: ignored if and only if the topic does not fit and has no comma in the part that does |
| `BrokerText.Matching` | module3/task02/broker.c:148-199 | for clean topics a publication that is carried reaches a subscription if and only if the topics agree on their first 63 characters, though two different paths cut them; both pids arrive, and the line of a topic without any comma |
| `BrokerText.SameTopicHeardExactly` | module3/task02/broker.c:148-188 | for all pids, topics and lines: a subscription and a publication printed for the same topic scan to the same topic if and only if it is clean and a comma ends it within the publication buffer |
| `BrokerText.RoutedWhole` | module3/task02/broker.c:112-114 | a copy says topic and payload of any received publication in full: the second formatting never truncates what fitted the first |
| `BrokerText.CopyUnique` | module3/task02/broker.c:114 | topic and payload can be read back from a copy, unless the topic itself holds the closing bracket |
| `Broker.BrokerProcess.RegisterSubscriber` | module3/task02/broker.c:65-80 | the table gets a new pair at its end if there is room, and stays the same otherwise |
| `Broker.BrokerProcess.UnregisterSubscriber` | module3/task02/broker.c:83-94 | the pair goes, the order of the others stays |
| `Broker.BrokerProcess.ShiftLeft` | module3/task02/broker.c:86-88 | the later entries move up by one, the earlier ones stay |
| `Broker.BrokerProcess.RegisterPublisher` | module3/task02/broker.c:97-109 | the first 128 distinct publishers are listed |
| `Broker.BrokerProcess.RouteMessage` | module3/task02/broker.c:112-134 | one copy for every subscription to the topic, in table order |
| `Broker.BrokerProcess.HandleSubscribe` | module3/task02/broker.c:148-154 | a request that scans adds its pair, any other changes nothing |
| `Broker.BrokerProcess.HandleUnsubscribe` | module3/task02/broker.c:157-163 | a request that scans removes its pair, any other changes nothing |
| `Broker.BrokerProcess.HandleSend` | module3/task02/broker.c:166-188 | a publication that scans lists its publisher and is routed, any other changes nothing |
| `Broker.BrokerProcess.ProcessIncomingMessage` | module3/task02/broker.c:191-199 | tables and sent copies after any text at all are those its parse calls for |
| `Broker.TableStaysUnique` | module3/task02/broker.c:65-94 | subscribing and unsubscribing keep the pairs distinct; unsubscribing removes that pair and only that |
| `Broker.TableStepExactly` | module3/task02/broker.c:65-94 | a pair is in the table after a command if and only if it was and is not unsubscribed, or is subscribed and there is room |
| `Broker.FirstDistinctListed` | module3/task02/broker.c:97-109 | the publishers listed are distinct, and of distinct ones the first 128, in order |
| `Broker.CopiesExactly` | module3/task02/broker.c:117-130 | a process gets a copy if and only if it is in the table for the topic |
| `Broker.SubscriberHeardExactly` | module3/task02/broker.c:65-80 | for every state of the table, all pids, topics and lines: after a request for a topic a publication under it gets the subscriber a copy if and only if it is carried and the pair was in the table or is new, clean and finds room |
| `Broker.SubscribeUnsubscribe` | module3/task02/broker.c:65-94 | a new pair in a table with room, unsubscribed again, leaves the ordered table as it was |
| `BrokerRuns.RoutingIsLoop` | module3/task02/broker.c:117-130 | routing copy by copy, undisturbed, queues what the routing loop sends |
| `BrokerRuns.Delivery` | module3/task02/broker.c:229-241 | in every interleaving the broker handles texts in sending order, and each subscriber has received a prefix of exactly one copy of each publication handled while it was subscribed |
| `BrokerRuns.ExpectedIsHeard` | module3/task02/broker.c:112-134 | the copies due to a subscriber belong one to one to the publications it hears, in increasing order |
| `BrokerRuns.HeardAll` | module3/task02/broker.c:112-134 | a publication is among those due to a subscriber if and only if the subscriber was in the table for its topic when it was handled |
| `BrokerRuns.SameOrder` | module3/task02/subscriber.c:53-66 | two subscribers see their common publications in the same order |
| `BrokerRuns.NothingLost` | module3/task02/publisher.c:58-60 | with queue and broker idle every subscriber has everything it should have heard of all ever sent |
| `BrokerRuns.LogsGrow` | module3/task02/publisher.c:58-60 | in the course of a run texts are only added behind the earlier ones |
| `BrokerRuns.SentAsAsked` | module3/task02/publisher.c:58-60 | in every run the texts put into the queue are, one for one and in order, what the clients' requests stand for: subscriptions and unsubscriptions with pid and topic, publications with pid, topic and line as far as they fit, or nothing |
| `BrokerRuns.ReceivedAsPosted` | module3/task02/subscriber.c:53-66 | the k-th text a subscriber received is bracketed topic, blank and line of the k-th publication it hears, as its publisher posted them |
| `BrokerRuns.CanAlwaysSettle` | module3/task02/broker.c:229-241 | from every state of every run broker and subscribers can go on until the queue is empty and everyone has everything due |
| `TaxiDriver.Driver.CheckTimerState` | module3/task10/driver.c:11-16 | busy exactly while the deadline lies ahead; remaining time rounded up to seconds |
| `TaxiDriver.Driver.HandleTask` | module3/task10/driver.c:22-41 | a busy driver answers with the remaining time and keeps its timer, an idle one acknowledges and arms it |
| `TaxiDriver.Driver.HandleStatusRequest` | module3/task10/driver.c:44-55 | the remaining time, 0 when idle; the timer is not touched |
| `TaxiDriver.DeadlineIsLatest` | module3/task10/driver.c:29-39 | over every life of a driver the timer remembers exactly the latest accepted task |
| `TaxiDriver.AcceptedDisjoint` | module3/task10/driver.c:22-41 | the busy intervals of accepted tasks are pairwise disjoint |
| `TaxiDriver.BusyTellsRemaining` | module3/task10/driver.c:29-31 | during a task every reply announces its remaining time rounded up, between 1 and its duration, and tasks are refused |
| `TaxiDriver.IdleSaysSo` | module3/task10/driver.c:32-52 | outside all tasks a task is acknowledged and a status request answered with 0 |
| `TaxiDriver.AnnouncedNeverRises` | module3/task10/driver.c:11-16 | the time announced for one task never goes up |
| `TaxiDriver.NonPositiveLeavesIdle` | module3/task10/driver.c:33-38 | a duration of zero or less is acknowledged and leaves the driver idle from then on |
| `TaxiDriver.AvailableExactlyWhenIdle` | module3/task10/server.c:39-53 | Available is printed if and only if no task covered the moment the driver looked |
| `TaxiDriver.AcceptedExactlyWhenIdle` | module3/task10/server.c:39-46 | a task is printed as accepted if and only if no task covered the moment the driver looked, and as Busy with what was left of that task otherwise |
| `TaxiDriver.BusyPrinted` | module3/task10/server.c:48-53 | during a task a status request is printed as Busy with what is left of it |
| `TaxiDispatcher.Dispatcher.HandleCreateDriver` | module3/task10/server.c:62-97 | the table grows by the new driver, up to 100 |
| `TaxiDispatcher.Dispatcher.FindDriver` | module3/task10/server.c:28-33 | finds the driver with the pid exactly if there is one |
| `TaxiDispatcher.Dispatcher.SendTo` | module3/task10/server.c:99-117 | one request into the FIFO of the driver with that pid, nothing if there is none |
| `TaxiDispatcher.Dispatcher.HandleGetDrivers` | module3/task10/server.c:119-128 | one status request for every driver |
| `TaxiDispatcher.Dispatcher.ProcessDriverMessage` | module3/task10/server.c:172-186 | the outcome is printed under the pid of the driver that owns the FIFO |
| `TaxiRuns.OutcomesInOrder` | module3/task10/driver.c:77-95 | in every interleaving of dispatcher, drivers and clock the outcomes printed for a driver are, in order, those of a timed life on a prefix of the requests written to it |
| `TaxiRuns.NothingLost` | module3/task10/server.c:99-128 | requests waiting, the one in hand, replies waiting and outcomes printed add up to the requests written |
| `TaxiRuns.OthersUntouched` | module3/task10/server.c:99-117 | a command to one driver leaves all others alone |
| `TaxiRuns.SendReaches` | module3/task10/server.c:99-117 | a command is written to the driver with its pid, behind what is in its FIFO |
| `TaxiRuns.AllAsked` | module3/task10/server.c:119-128 | the command to all asks each driver once for its status and then is over |
| `TaxiRuns.HandledByTheClock` | module3/task10/driver.c:11-38 | each request handled was looked at, and its timer armed, at the times the clock showed at those steps |
| `TaxiRuns.CanAlwaysAnswer` | module3/task10/driver.c:77-95 | from every state of every run, between commands, everything asked of a driver can be answered and printed, one outcome per request |
| `ByteStreams.Socket.ReadAll` | module3/task07/common.c:3-17 | reads the next bytes up to the size or the end of file however the kernel splits or interrupts, and terminates; -1 only on failure |
| `ByteStreams.Socket.WriteAll` | module3/task07/common.c:19-31 | writes all bytes in order, or -1 on failure with a prefix written |
| `ByteStreams.Transport` | module3/task07/common.c:3-31 | written and read packet by packet, any sequence of packets arrives unchanged |
| `ByteStreams.SplitJoined` | module3/task07/common.c:3-31 | cutting the byte stream into fixed-size packets recovers exactly the packets joined |
| `ByteStreams.SplitAppend` | module3/task07/common.c:3-31 | at a packet boundary the packets of a longer stream are those of its two parts |
| `RelayServer.Server.RemoveClient` | module3/task07/server.c:6-14 | the last descriptor takes the place of the removed one; unknown descriptors change nothing |
| `RelayServer.SwapRemovedKeeps` | module3/task07/server.c:6-14 | removal takes out that descriptor only and keeps the others distinct |
| `RelayServer.Server.HandleNewConnection` | module3/task07/server.c:66-94 | a connection joins the table unless 128 are open |
| `RelayServer.Server.BroadcastPacket` | module3/task07/server.c:96-102 | one copy for every client but the sender, in table order |
| `RelayServer.CopiesOncePerClient` | module3/task07/server.c:96-102 | nobody gets a packet twice, the sender gets none, all others get it |
| `RelayServer.ShortPacketFilledUp` | module3/task07/server.c:124-131 | what goes out begins with the bytes read and goes on as the buffer did |
| `RelayServer.Server.HandleClientData` | module3/task07/server.c:123-133 | one packet is read and relayed, a short one filled up with old buffer contents; end of file or a failed read drops the client and relays nothing |
| `RelayRuns.ServedIsBroadcast` | module3/task07/server.c:96-102 | what a step of a run hands out is what the broadcast loop writes |
| `RelayRuns.EveryoneElseInOrder` | module3/task07/server.c:96-133 | in every run a connected client has exactly what all others sent since it joined, in order, in whole packets, without echo |
| `RelayRuns.FromJoiningOn` | module3/task07/server.c:90-102 | of one sender it has that sender's packets from the later of the two joinings on |
| `RelayRuns.SenderInOrder` | module3/task07/server.c:123-133 | what is relayed from a client, connected or gone, are the whole packets of its stream read so far |
| `RelayRuns.WholeStreamExactly` | module3/task07/server.c:123-133 | when a client's stream is read to its end, as it is whenever it has left, exactly its packets were relayed if and only if it closed at a packet boundary; otherwise exactly one more, beginning with the unfinished one; either way all its bytes went out in order |
| `RelayRuns.PieceOfStream` | module3/task07/server.c:90-133 | what a client has of one sender, connected or gone, since both were connected is a contiguous piece of the packets of the sender's stream: behind those relayed before the client joined, as far as the stream was read |
| `RelayRuns.NothingAfterLeaving` | module3/task07/server.c:116-121 | a client that left receives nothing in the rest of the run, until its descriptor is given to a new connection |
| `RelayRuns.AcceptJoins` | module3/task07/server.c:66-94 | a new connection joins with nothing relayed to it yet, unless 128 are open |
| `RelayRuns.CanAlwaysReadToEnd` | module3/task07/server.c:123-133 | from every state of every run, serving a client brings it to its end, with all its bytes relayed |
| `FileTransfer.UploadFile` | module3/task07/client.c:54-78 | the packets of an upload: start, one per chunk, end |
| `FileTransfer.UploadNames` | module3/task07/client.c:42-52 | every packet of an upload names its sender, cut to 31 bytes, and its file, cut to 255 |
| `FileTransfer.StrayIgnored` | module3/task07/client.c:141-150 | file data and ends without a start change nothing |
| `FileTransfer.FileReceiver.HandleServerMessage` | module3/task07/client.c:107-155 | what each packet does to the open file and the saved ones |
| `FileTransfer.UploadArrives` | module3/task07/client.c:130-149 | with one uploader at a time, whatever else is said meanwhile, exactly one file is saved, the one that arrives of the source |
| `FileTransfer.UploadsArrive` | module3/task07/client.c:130-149 | any number of uploads, one after the other and among whatever else is said: the files saved are what arrives of each source, in order |
| `FileTransfer.UploadsInProgress` | module3/task07/client.c:130-149 | in the middle of a further upload the files saved are still what arrives of the finished ones, in order |
| `FileTransfer.ChunkSurvivesExactly` | module3/task07/client.c:42-52 | a chunk filled in like a C string arrives unchanged if and only if only NULs follow its first NUL and byte 1023 is NUL |
| `FileTransfer.FileArrivesExactly` | module3/task07/client.c:66-73 | for files of any size: the length always arrives, the contents if and only if every chunk survives |
| `FileTransfer.PacketRoundTrip` | module3/task07/common.h:31-37 | a packet copied out as 1320 bytes and back in is the same packet |
| `FileTransfer.WireRoundTrip` | module3/task07/common.c:3-31 | cutting and decoding the bytes of any packets recovers exactly them |
| `FileTransfer.UploadOverStream` | module3/task07/client.c:54-78 | every packet of an upload can be encoded, and the bytes of an upload, cut, decoded and received, save what arrives of the source |
| `FileRelay.UploadThroughRelay` | module3/task07/server.c:90-133 | in every run and at every moment, whoever joined first and whether the uploader goes on sending or has left: a client that missed no upload packet and hears of no other uploader has saved exactly the files whose upload is finished, as they arrive, in order |
| `FileRelay.UploadFromStream` | module3/task07/server.c:90-133 | the same said of the whole packets the server read of the uploader's stream |
| `Copier.WriteChunk` | module3/task01/copier.c:168-177 | partial writes add up to the whole chunk; it succeeds whenever no call is interrupted or fails, and never writes anything else |
| `Copier.Pump` | module3/task01/copier.c:65-88 | everything up to the end of file goes across, and is counted, whenever no call is interrupted or fails; otherwise a prefix of it |
| `Copier.RunParent` | module3/task01/copier.c:139-190 | it succeeds whenever the ready byte came, no call is interrupted or fails and the header goes out at once; then header and file are sent, without the ready byte nothing, otherwise a prefix |
| `Copier.RunChild` | module3/task01/copier.c:31-94 | it succeeds whenever no call is interrupted or fails and the header comes at once; then the copy is everything behind the header, and the mismatch is reported exactly if the sizes differ |
| `CopierRuns.SizeRoundTrip` | module3/task01/copier.c:152-156 | the announced size is read back from the 264 header bytes |
| `CopierRuns.CopyNamedExactly` | module3/task01/copier.c:42-53 | the copy has the source's name with the extension if and only if that name has at most 255 bytes; a longer one is cut |
| `CopierRuns.NothingLost` | module3/task01/copier.c:21-94 | in every interleaving with partial reads and writes: copy, child's buffer, pipe, parent's buffer and unread rest are the source; no header before the ready byte; the child never fails |
| `CopierRuns.CopyEqualsSource` | module3/task01/copier.c:65-94 | when the child is through, the copy is the source and has the announced size |
| `CopierRuns.EveryStepWorks` | module3/task01/copier.c:139-190 | a measure falls with every effective step, so there is no endless run |
| `CopierRuns.NoDeadlock` | module3/task01/copier.c:139-190 | until both are through, one of them can move |
| `CopierRuns.CopyAlwaysFinishes` | module3/task01/copier.c:65-94 | every run has at most linearly many effective steps in the file's size, and one that can go no further has ended with an exact copy |
| `ChatRuns.StepKeeps` | module3/task03/chat.c:92-187 | the invariant over both processes and both queues survives every step, signals included |
| `ChatRuns.ShownIsPrefix` | module3/task03/chat.c:92-115 | in every run one side shows a prefix of the ordinary messages the other sent; each sends at most one exit message, last of all, and never without having raised its exit flag itself |
| `ChatRuns.NothingLost` | module3/task03/chat.c:92-115 | waiting on an empty queue, a side has shown everything the other sent |
| `ChatRuns.NothingShownAfterExit` | module3/task03/chat.c:98-114 | once an exit message was received, or the receiving thread ended, nothing is shown in the rest of the run |
| `ChatRuns.NothingSentAfterExit` | module3/task03/chat.c:147-187 | once an exit message was sent nothing is sent in the rest of the run |
| `ChatRuns.NoAnswerToExit` | module3/task03/chat.c:183-187 | a process whose exit flag only its receiving thread raised sends no exit message |
| `ChatRuns.ExitOvertakes` | module3/task03/chat.h:7-9 | a queued exit message is received next, however many ordinary ones came before |
| `ChatLines.SentAsEntered` | module3/task03/chat.c:147-181 | in every run what a side sent, with a line about to be sent, is exactly what was entered there, in order, without the lines given up for a signal at a full queue |
| `ChatLines.ShownAsEntered` | module3/task03/chat.c:92-115 | what a side shows is a prefix of what was entered at the other, without those |
| `ChatLines.LeavesLoop` | module3/task03/chat.c:147-166 | the exit command, the end of input, an interrupted reading and a raised flag end the input loop |
| `ChatLines.LeavingTellsPeer` | module3/task03/chat.c:183-187 | a process through with its input has sent its exit message, unless it has its peer's or gave up at a full queue |
| `ChatLines.ExitHeeded` | module3/task03/chat.c:98-107 | an exit message received raises both flags and ends the receiving thread |
| `ChatLines.OwnExactly` | module3/task03/chat.c:147-166 | a process raised its exit flag itself if and only if it was signalled, read the exit command or came to the end of its input |
| `ChatLines.OnlyRaisersSendExit` | module3/task03/chat.c:183-187 | a process that did none of this sends no exit message |
| `ChatLines.CanAlwaysShow` | module3/task03/chat.c:92-115 | from every state of every run the receiving thread can go on until it has an exit message, has ended, or has shown everything sent |
| `ChatLines.CanAlwaysLeave` | module3/task03/chat.c:183-194 | from every state of every run at most six signals bring a process to its end |

## Left out

- Creating and opening queues, segments, FIFOs, sockets and timers, `fork`, signal set-up, printed prompts and sleeps.
- Random draws, clocks, the kernel's splitting of calls, received packets and typed lines are parameters or schedule entries.
- Calls that fail are modelled where the code goes on after them: the ignored semaphore calls after the cleanup, failing
  reads and writes of `ByteStreams` and `Copier`, failing receives of the echo client. Elsewhere calls succeed.
- `SegmentRuns`, `BrokerRuns`, `TaxiRuns`, `RelayRuns`, `CopierRuns` and `ChatRuns` describe interleaved processes on
  values, since one class body cannot be interrupted; the loops of a single process are methods on arrays and fields
  beside them, except those of the chat and of publisher and subscriber, which are only steps of the runs.
- `SegmentRuns`: a lock attempt on a live semaphore never fails. The System V program ignores the result of `semop`, which a
  stop and continue of a waiting process makes fail; the POSIX program ignores that of `sem_wait`, which takes a signal
  handler it does not install. What either costs is in `SegmentInterrupted`.
- SegmentSafety.NoDeadlock: says that some process can move, not that the lock is fair to each of them.
- The message queue of the broker and the FIFOs of the taxi system are unbounded; a full one would block or drop.
- The broker's inactivity timeout, its signals to all clients at the end, and the removal of its queue under waiting clients.
- EchoServer.Server.ProcessIncomingPacket: not for packets to its port whose length field is below 8 or reaches beyond the
  receive buffer, nor for answers longer than the send buffer, which takes a length field beyond the bytes received; for
  exactly those the program leaves its buffers.
- EchoServer.SendReply: not for replies longer than the send buffer.
- EchoClient.WaitForServerReply: not for replies whose length field is below 8 or reaches beyond the receive buffer.
- FileTransfer.FileReceiver.HandleServerMessage: not for file data whose length field exceeds 1024; the program would
  write out what lies behind the packet in its memory. Its own clients never send that.
- EchoServer.ReplyTextUnique: on unbounded numbers; message counts stay below the `int` limit.
- BrokerText: pids are below 2^31, scanned numbers are not wrapped to 32 bits, characters are single bytes and none is NUL.
- RelayRuns: writes to clients succeed, so that no copy is cut off in the middle.
- FileTransfer.UploadsArrive: two uploads at once share the receiver's one open file and are not described.
- The directory part of a file name, which the uploading client leaves out before it sends the name.
- CopierRuns: the source does not change during the copy.
- The taxi dispatcher's command line, and timers beyond whole seconds from the monotonic clock.
- `module3/task06`, the rest of `module3/task08`, the kernel modules of `module5`, and the scripts and configurations of
  `module1` and `module4`: little state of their own.
