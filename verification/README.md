# Verified model of rucoonos

rucoonos is a small async kernel with its own network card driver and network stack. This
project models the parts of it whose correctness depends on the interplay of several actors or
several layers, and proves what they promise:

- **The E1000 rings** (`RxRing`, `TxRing`, `TxRace`; `RxCard`, `TxCard`). The card and the interrupt
  handler share two rings of descriptors. On the receive ring the card may act between any two
  memory accesses of the handler; every frame it writes is passed on exactly once and in order.
  On the transmit ring the exact conditions are given under which packets are sent in order, no
  buffer is lost and none is freed wrongly. The last needs no condition if the card rests while
  the handler runs (`TxRing`), and the batch to fit if it does not (`TxRace`).
- **The executor** (`Executor`, `Kernel`). Any number of spawners, each taking an id,
  publishing a task and publishing the id, interleave with wakers and with the run loop.
- **Ping and ARP requests** (`Ping`, `PingFutures`, `Arp`). Futures, the handler's tables and
  the executor are composed into one transition system, in which no wakeup is lost.
- **The DHCP client** (`DhcpClient`) and **the packet handler** (`Handler`), from raw frames to
  an assigned address.
- **The network stack as a whole** (`Network`): frames, requests, handler, callers and executor
  in one system. Its runs are runs of `Ping` and `Arp`, so that what is proved there holds from
  raw frames on.
- **The packet formats** (`Ethernet`, `Ipv4`, `Udp`, `Icmp`, `Dhcp`, with `Checksum`): nested
  builders, the parsers that undo them, and checksums against RFC 1071.
- **Frame allocation and heap mapping** (`Frames`), **the screen buffer** (`Screen`) and **the
  random number generator** (`Kiss`).

`Runs` holds what all transition systems share: a run is a sequence of actions, `Exec` its
result, and an invariant kept by every action holds in every reachable state. `Ring` does the
arithmetic of cyclic ranges, `Bytes` that of words.

## How the code is represented

- Code that updates things in place is a class or a method on an array, proved to take the
  steps of a transition system or to compute a function on values; the properties are proved of
  that. Where other actors may interfere, a method hands control to them at every point where
  the source could be interrupted (`RxCard.Card.CardActs`, `Kernel.Kernel.OthersAct`), and
  returns the run it took as a ghost value.
- Integer overflow depends on the build: `Checked` builds panic, `Wrapping` builds wrap around.
  Members that can overflow take the build as a parameter. `Outcome` is a value, the source's
  `Err`, or a panic.
- What a run did is counted off its actions (`Executor.Wakes`, `Ping.PingsOf`, `Arp.AskedBy`), not
  off the histories the models keep, and what is on the wire is stated byte by byte against the
  standards.
- The queues of the `nolock` crate are taken to be unbounded, linearizable and first in, first
  out, except the reply queue of an ARP request, which has its capacity of 2. Frames the card
  receives, the scripts of other actors, and the page table frames the mapper draws are
  parameters.

## Where the code falls short of its purpose

Each of these is stated for all inputs, with the condition a caller could check, and with a
failing input or a run that leads to a failing state:

- A transmit batch of 8 packets moves the tail all the way round onto the head; the order is
  kept if and only if a batch is smaller (`TxRing.FifoExactly`, `TxRing.EightBreakOrder`). A
  batch that reaches unreclaimed slots loses buffers (`TxRing.ConservationExactly`,
  `TxRing.FourLoseBuffer`), and if the card sends it before the scan, a null pointer is freed
  (`TxRace.RaceExactly`, `TxRace.SevenFault`).
- A second ping to an address whose first ping is unanswered overwrites its table entry; the
  first one then never completes (`Ping.LostIffSecondPing`, `Ping.LostForever`,
  `Ping.SecondPingLoses`).
- The handler panics on an ARP response for a caller that has gone (`Arp.PanicsIffDropped`,
  `Arp.DroppedCallPanics`).
- The checksums of IPv4 and ICMP fold only one carry, and ICMP leaves out an odd last byte
  (`Ipv4.ChecksumExactly`, `Icmp.MessageExactly`, `Icmp.OddByteUnverified`). So a checked build
  cannot ping some addresses, and an unchecked one sends them headers that do not verify
  (`Handler.PingBuiltIff`, `Handler.UnluckyPing`, `Handler.UnverifiedPing`).
- The DHCP option walk is misled by pads and by empty options (`Dhcp.WalkIsStandard`,
  `Dhcp.PadMisleads`, `Dhcp.EmptyOptionMisleads`).
- The multiply-with-carry step overflows in one family of states, which the generator reaches
  (`Kiss.OverflowIff`, `Kiss.OverflowReached`).

The IPv4 parser reads the differentiated services, ECN, flags and fragment fields from other
positions than the writer uses. The model does what each of them does, and
`Ipv4.PacketRoundTrip` states what comes back. The DHCP request declares 257 bytes but writes
its End option at index 257, so the option is cut off; the model does the same.

## Model

| member | source | states |
|---|---|---|
| RxRing.StepKeepsInv | src/hardware/device/e1000.rs:386-418 | every step of card or handler, in any order, keeps the ring invariant: descriptor k is in slot k mod 32, its status bit is set exactly while its frame waits, the tail stays one behind `cur_rx` |
| RxRing.ExactlyOnceInOrder | src/hardware/device/e1000.rs:386-418 | in every interleaving, the frames passed on followed by those still in the slots from `cur_rx` to the head are the frames the card wrote: none lost, repeated or reordered |
| RxRing.CardNeverOverwrites | src/hardware/device/e1000.rs:190-193 | in every interleaving, from head 0 and tail 31 on, no slot the card may write is unread, has its status set, or is the one the handler works on |
| RxRing.SlotsAreConserved | src/hardware/device/e1000.rs:386-418 | between two rounds of the loop the slots the card may write and the unread ones are 31 together |
| Ring.SlotIsModulo | src/hardware/device/e1000.rs:415 | the slot of a descriptor number is that number modulo the ring size |
| RxCard.Card.constructor | src/hardware/device/e1000.rs:190-193 | the programmed ring is an initial state of the transition system |
| RxCard.Card.Load | src/hardware/device/e1000.rs:388-394 | reading the descriptor is a step of the system; a clear status means that everything written was passed on |
| RxCard.Card.Enqueue | src/hardware/device/e1000.rs:396-407 | copying the frame into a packet buffer and passing it on is a step of the system; every message holds the bytes of its frame up to the 2048th, zeros after them, and the full length |
| RxCard.Card.Clear | src/hardware/device/e1000.rs:409-412 | clearing the status is a step of the system |
| RxCard.Card.Advance | src/hardware/device/e1000.rs:414-415 | advancing `cur_rx` modulo 32 is a step of the system |
| RxCard.Card.WriteTail | src/hardware/device/e1000.rs:416 | handing the slot back is a step of the system |
| RxCard.Card.HandleInterrupt | src/hardware/device/e1000.rs:386-418 | every execution of the receive loop, with the card acting in between, is a run of the system, ends, and ends with all written frames passed on, in order, byte by byte |
| TxRing.ReclaimIsSafe | src/hardware/device/e1000.rs:420-468 | in every run, with batches of any size, each pointer freed is non-null, allocated and completed by the card, and neither a slot still to be sent nor a queued packet refers to freed memory |
| TxRing.FifoExactly | src/hardware/device/e1000.rs:420-438 | while batches are below 8 packets, what was sent followed by what is on the ring is what was dequeued, in order; the next interrupt keeps this if and only if its batch is below 8 |
| TxRing.ConservationExactly | src/hardware/device/e1000.rs:341-468 | while batches fit, the freed buffers followed by those in the slots from `last_reclaimed_tx` to `cur_tx` are the dequeued ones; the next interrupt keeps this if and only if its batch fits |
| TxRing.HandleConserved | src/hardware/device/e1000.rs:420-468 | an interrupt whose batch fits keeps the buffer invariant: buffer k is in slot k mod 8 until freed, in the order of sending |
| TxRing.ReclaimConserved | src/hardware/device/e1000.rs:440-468 | the scan frees exactly the buffers of all completed packets, in order |
| TxRing.OverfullLeaks | src/hardware/device/e1000.rs:420-468 | a batch that does not fit loses a buffer |
| TxRing.InterruptMoves | src/hardware/device/e1000.rs:423-438 | an interrupt moves up to 8 packets onto the ring, exactly if the card has caught up and the cause says so |
| TxRing.NothingVanishes | src/hardware/device/e1000.rs:420-438 | in every run the packets taken from the queue followed by those in it are the packets handed over, in order |
| TxRing.MemoryIsConserved | src/hardware/device/e1000.rs:440-468 | in every run each buffer handed over is still allocated or was given back, once for each time it was handed over |
| TxRing.IdleReached | src/hardware/device/e1000.rs:420-468 | fitting runs lead to an idle ring with any number below 8 of unreclaimed slots and any number of packets waiting, so both sides of the conditions occur |
| TxRing.EightBreakOrder | src/hardware/device/e1000.rs:423-438 | a run after which a batch of 8 breaks the order |
| TxRing.FourLoseBuffer | src/hardware/device/e1000.rs:423-438 | a run after which a batch of 4 loses a buffer, though the order is kept |
| TxRace.StepKeeps | src/hardware/device/e1000.rs:420-468 | with the card acting between any two steps of the handler, every step but a refill without room keeps the invariant: the scan frees exactly what was sent before the head was read |
| TxRace.RaceIsSafe | src/hardware/device/e1000.rs:420-468 | in every such run in which the batches fit, no pointer is freed wrongly, packets are sent in order, what is on the ring is allocated, and between interrupts no buffer is lost |
| TxRace.RaceExactly | src/hardware/device/e1000.rs:420-468 | from such a run, a batch below 8 packets can lead to a wrong free if and only if unreclaimed slots and batch exceed 8 |
| TxRace.AtomicEmbeds | src/hardware/device/e1000.rs:420-468 | every fitting run with the card at rest inside the handler is one of these runs |
| TxRace.SevenFault | src/hardware/device/e1000.rs:420-468 | a run in which a batch of 7 leads to a null pointer being freed |
| TxCard.Card.EnqueuePacket | src/hardware/device/e1000.rs:341-364 | filling the descriptor and the buffer table and moving the tail is the step of the system |
| TxCard.Card.RefillRing | src/hardware/device/e1000.rs:423-438 | the loop moves up to 8 packets, as the system's refill |
| TxCard.Card.ReclaimBuffers | src/hardware/device/e1000.rs:440-468 | the cyclic scan frees as the system's reclaim and reaches the head it was given after fewer than 8 slots |
| TxCard.Card.HandleInterrupt | src/hardware/device/e1000.rs:420-468 | the transmit half of an interrupt is a step of the system |
| Executor.FindTask | kernel/src/lib.rs:98-104 | the first task with the id, and none only if no task has it |
| Executor.LookupNeverFails | kernel/src/lib.rs:86-104 | for any spawners, wakers and interleaving, a dequeued id has a task once the add queue is drained, so the branch for a missing task is never taken; exactly one while the counter has not wrapped |
| Executor.IdsDistinctIffNoWrap | kernel/src/handle.rs:30-49 | between spawns the ids of the tasks are distinct if and only if at most 2^64 were handed out |
| Executor.IdIsModulo | kernel/src/handle.rs:34 | the id of a ticket is the ticket modulo 2^64 |
| Executor.PollsAreSpawnPlusWakes | kernel/src/lib.rs:84-111 | for every id in every run, counted off the actions of the run: polls + occurrences on the queue + the one in hand = spawns with this id + wakes of it; without wrap there is at most one such spawn |
| Executor.PolledInTurn | kernel/src/lib.rs:84-111 | the id at position k of the run queue is the one polled in the (k+1)-th iteration from there, whatever the others do |
| Executor.HistoriesRecorded | kernel/src/handle.rs:30-49 | the counter, the tickets of the spawners and all histories are what the actions of the run say |
| Executor.WakeableIffPolled | kernel/src/task.rs:39-44 | a task can be woken if and only if it was polled before |
| Kernel.Kernel.TakeId | kernel/src/handle.rs:34 | taking an id is a step of the system that moves the counter on by one |
| Kernel.Kernel.PublishTask | kernel/src/handle.rs:36-38 | publishing the task is a step of the system that appends it to the add queue |
| Kernel.Kernel.PublishId | kernel/src/handle.rs:39 | publishing the id is a step of the system that appends it to the run queue |
| Kernel.Kernel.Wake | kernel/src/task.rs:65-72 | a wake is a step of the system that appends the id to the run queue, even if it is on it |
| Kernel.Kernel.Drain | kernel/src/lib.rs:94-96 | with the others acting in between, the drain ends and is a run of the system |
| Kernel.Kernel.FindAndPoll | kernel/src/lib.rs:98-109 | the search loop finds the first match, whose poll is a step of the system |
| Kernel.Kernel.Iterate | kernel/src/lib.rs:85-110 | one iteration, with the others acting in between, is a run of the system and consumes one id |
| Kernel.Kernel.Run | kernel/src/lib.rs:84-111 | the whole loop is a run of the system that misses no task, and in which each id was polled once for each spawn and each wake of the run |
| Ping.Projects | kernel/src/lib.rs:84-111 | what the executor does in a run of the composed system is a run of the executor alone |
| Ping.OneRequestOneCompletion | src/extensions/networking/api.rs:42-67 | in every run the `expect` calls of a poll succeed, each future sends exactly one request, a reply completes at most one future and none twice, and a waker that is to be called can be |
| Ping.PollStarts | src/extensions/networking/api.rs:42-67 | a poll starts a ping exactly if it has one to go on with and its task waits for no answer, and then sends one request, for the ip and mac of this ping |
| Ping.RequestsExactly | src/extensions/networking/api.rs:51-60 | in every run the polls send exactly one request per future, in order, with the ip and mac that were to be pinged |
| Ping.RequestsAreRegistered | src/extensions/networking/handler.rs:116-124 | a request that is handled is registered under the ip it pings |
| Ping.RepliesCompleteExactly | src/extensions/networking/handler.rs:262-269 | handling a message completes a future if and only if it is an echo reply from the ip the future pinged and the future is registered; its waker is then called |
| Ping.AnsweredByItsAddress | src/extensions/networking/handler.rs:262-269 | in every run a ping that was answered was answered by a reply that arrived from the ip it pinged |
| Ping.MessagesInOrder | src/extensions/networking/handler.rs:62-70 | the handler takes the messages in the order they were sent, and none is lost |
| Ping.LostIffSecondPing | src/extensions/networking/handler.rs:116-124 | in every run an unanswered ping is in exactly one of the message queue, the table and the lost; the handler loses one exactly when it takes a second ping to an address in the table |
| Ping.LostForever | src/extensions/networking/handler.rs:262-269 | a lost ping never becomes ready, in any continuation |
| Ping.SecondPingLoses | src/extensions/networking/handler.rs:116-124 | a run in which two tasks ping one address and the first is lost |
| Ping.NoLostWakeup | src/extensions/networking/handler.rs:262-269 | once a reply was handled, the task has a definite turn on the run queue, and in every continuation that gets past that turn a poll of the future has returned Ready |
| Ping.HandleKeeps | src/extensions/networking/handler.rs:262-269 | handling a request or reply keeps every unanswered ping located, woken and counted |
| PingFutures.PingFuture.constructor | src/extensions/networking/api.rs:23-30 | a new future holds both addresses, has not sent and has its own clear flag |
| PingFutures.PingFuture.Poll | src/extensions/networking/api.rs:42-67 | a poll in place is the step of the composed system: Ready exactly if the flag is set; the first unanswered poll, and no other, sends one request with the future's own ip and mac; never a panic |
| Arp.AtMostOneReply | src/extensions/networking/api.rs:8-21 | in every run each reply queue receives at most one value, less than its capacity, and a returned address is one that a response from the requested ip carried; the ip map is what the responses taught |
| Arp.StoredWhenAnswered | src/extensions/networking/handler.rs:195-205 | the step that answers a call stores the same address in the ip map and answers no other call |
| Arp.PanicsIffDropped | src/extensions/networking/handler.rs:202-204 | the handler panics on a message if and only if it is a response for a call that was dropped |
| Arp.DroppedCallPanics | src/extensions/networking/handler.rs:202-204 | a run that panics: ask, be registered, go away, and then the response |
| Arp.ResponsesArrived | src/extensions/networking/handler.rs:195-205 | every response handled in a run has arrived in it |
| Arp.RequestsRegister | src/extensions/networking/handler.rs:92-95 | handling the request of a call registers it under the ip it asked for |
| Arp.ResponseAnswers | src/extensions/networking/handler.rs:195-205 | a response is stored in the address map and answers the call registered for its sender, unless that was dropped |
| Arp.NextReceiveReturns | src/extensions/networking/api.rs:8-21 | a call that has its answer gets it the next time it looks, whatever happens in between |
| Arp.ReceivesNone | src/extensions/networking/api.rs:8-21 | a call gets None if and only if it has no answer and nobody can send it one any more; it waits if and only if somebody can |
| Arp.MessagesInOrder | src/extensions/networking/handler.rs:62-70 | the handler takes the messages in the order they were sent, and none is lost |
| Checksum.OnesSumIsModular | src/extensions/networking/protocols/ipv4.rs:97-100 | the plain sum of the words equals the one's-complement sum of RFC 1071 modulo 2^16 - 1, and is zero only for zero |
| Checksum.PatchedVerifies | src/extensions/networking/protocols/ipv4.rs:102-107 | a message with the computed checksum filled in verifies if and only if the sum has a single carry and no odd last byte was left out |
| Ipv4.ChecksumExactly | src/extensions/networking/protocols/ipv4.rs:90-110 | for every header the word sum fits in 32 bits; the checksum can be computed unless a checked build meets a second carry; the header verifies if and only if there is none |
| Ipv4.WriteHeader | src/extensions/networking/protocols/ipv4.rs:113-131 | writes the 20 bytes of the header in place and nothing else, or fails on a short target |
| Ipv4.HeaderRoundTrip | src/extensions/networking/protocols/ipv4.rs:140-175 | what the parser makes of a written header, for every header: all fields, including those it reads from other positions, and the panic on a header length that does not fit |
| Ipv4.PacketBuilt | src/extensions/networking/protocols/ipv4.rs:301-335 | a packet can be built if and only if it fits and, in a checked build, the header sum has a single carry |
| Ipv4.PacketRoundTrip | src/extensions/networking/protocols/ipv4.rs:301-335 | a built packet parses back to its addresses, lengths, identification, protocol, ttl and payload, padded to 26 bytes |
| Ipv4.ProtocolsAreAssigned | src/extensions/networking/protocols/ipv4.rs:50-69 | the protocol numbers, both ways |
| Ipv4.PacketBytes | src/extensions/networking/protocols/ipv4.rs:301-335 | a built packet byte by byte: every header field at its place in section 3.1 of RFC 791, then the payload |
| Ipv4.ParsedByPlaces | src/extensions/networking/protocols/ipv4.rs:140-175 | the parser reads lengths, identification, ttl, protocol and addresses from those places |
| Ethernet.NewBuffer | src/extensions/networking/protocols/buffer.rs:10-21 | byte k of the block is byte k of the data for k below 2048 and the length of the data, and zero otherwise; the length is that of the data |
| Ethernet.ReceivedContent | src/extensions/networking/protocols/ethernet.rs:51-68 | what is read from the buffer of a received frame of 14 to 2048 bytes: its addresses, its type, and all bytes from the 14th on |
| Ethernet.Finish | src/extensions/networking/protocols/ethernet.rs:140-154 | filling the block in place produces the frame: header, payload, zeros up to 46 bytes, or the error or panic of the payload or of a bad length |
| Ethernet.FrameRoundTrip | src/extensions/networking/protocols/ethernet.rs:51-68 | a built frame has the addresses and type it was given and its content is the payload, cut to its size or padded |
| Ethernet.TypesAreAssigned | src/extensions/networking/protocols/ethernet.rs:22-43 | the type numbers, both ways |
| Ethernet.FrameBytes | src/extensions/networking/protocols/ethernet.rs:140-154 | a built frame byte by byte: destination, source, type, payload, zeros up to 60 bytes |
| Ethernet.FrameOutcome | src/extensions/networking/protocols/ethernet.rs:140-154 | exactly when building a frame succeeds and when it reports the error of its payload |
| Udp.HeaderRoundTrip | src/extensions/networking/protocols/udp.rs:20-51 | parsing undoes writing for every header, whatever follows it |
| Udp.WriteDatagram | src/extensions/networking/protocols/udp.rs:151-163 | header and payload are written in place as specified, with the error and panic cases |
| Udp.DatagramParses | src/extensions/networking/protocols/udp.rs:79-86 | what a receiver parses from a built datagram, for any payload closure and declared size |
| Udp.NestedRoundTrip | src/extensions/networking/protocols/udp.rs:139-167 | for all ports, addresses and payloads a datagram can be built if and only if the payload is at most 1458 bytes and, in a checked build, the header sum has a single carry; and then it parses through all layers to the same MACs, IPs, protocol, ports and payload, padded to 18 bytes |
| Udp.DatagramBytes | src/extensions/networking/protocols/udp.rs:139-167 | a built datagram byte by byte: ports, length and a zero checksum at their places in RFC 768, then the payload |
| Icmp.TypeRoundTrip | src/extensions/networking/protocols/icmp.rs:13-57 | type, identifier and sequence decode to what was set, unless an unknown type has the code of an echo |
| Icmp.WriteMessage | src/extensions/networking/protocols/icmp.rs:124-143 | writing in place, summing and patching produces the specified message, for every declared size |
| Icmp.MessageBuilt | src/extensions/networking/protocols/icmp.rs:108-146 | a message can be built if and only if it fits and, in a checked build, neither checksum needs a second carry |
| Icmp.MessageExactly | src/extensions/networking/protocols/icmp.rs:108-146 | a built message verifies if and only if its sum has a single carry and it has even size or a zero last byte, and it decodes to what was set |
| Icmp.EchoBytes | src/extensions/networking/protocols/icmp.rs:108-146 | a built echo message byte by byte: type 8 or 0, code 0, identifier and sequence at their places in RFC 792, then the payload |
| Icmp.OddByteUnverified | src/extensions/networking/protocols/icmp.rs:133-140 | a message with a payload of one nonzero byte is built and does not verify |
| Dhcp.FindMessageType | src/extensions/networking/protocols/dhcp.rs:53-65 | the loop over the option bytes ends and computes the walk, including its panics |
| Dhcp.WalkIsStandard | src/extensions/networking/protocols/dhcp.rs:53-65 | for every list of options without pads before the message type, the walk finds the type that section 2 of RFC 2132 defines if none of them is empty; in a checked build only then |
| Dhcp.PadMisleads | src/extensions/networking/protocols/dhcp.rs:53-65 | a concrete buffer with one pad on which the walk panics |
| Dhcp.EmptyOptionMisleads | src/extensions/networking/protocols/dhcp.rs:62-63 | a concrete buffer with an empty option on which an unchecked build panics |
| Dhcp.FieldsParse | src/extensions/networking/protocols/dhcp.rs:67-81 | the parser reads every fixed field from its place in section 2 of RFC 2131 |
| Dhcp.MessageParses | src/extensions/networking/protocols/dhcp.rs:48-82 | any message with given fixed fields, options without pads and empty values, and a message type, parses to exactly these fields; it is an offer if and only if the type is 2 and an ack if and only if it is 5 |
| Dhcp.TypesAreStandard | src/extensions/networking/protocols/dhcp.rs:16-26 | the message types of section 9.6 of RFC 2132 |
| Dhcp.WriteDiscover | src/extensions/networking/protocols/dhcp.rs:111-136 | the closure writes exactly the bytes of the discover message into a zeroed slice |
| Dhcp.WriteRequest | src/extensions/networking/protocols/dhcp.rs:159-193 | the closure writes exactly the bytes of the request message into a zeroed slice |
| Dhcp.ClientMessagesBuilt | src/extensions/networking/protocols/dhcp.rs:99-196 | the messages can be built for all arguments, except, in a checked build, two identifications each |
| Dhcp.DiscoverParsesBack | src/extensions/networking/protocols/dhcp.rs:99-139 | a discover message decodes through all layers to its operation, transaction and hardware address, and no addresses |
| Dhcp.RequestParsesBack | src/extensions/networking/protocols/dhcp.rs:141-196 | a request message decodes through all layers to its operation, transaction, hardware address, requested address and server |
| Dhcp.ClientLaidOut | src/extensions/networking/protocols/dhcp.rs:111-128 | the client's messages have the layout of RFC 2131, magic number included |
| Dhcp.DiscoverOptions | src/extensions/networking/protocols/dhcp.rs:130-133 | read by code, the discover has message type 1 |
| Dhcp.RequestOptions | src/extensions/networking/protocols/dhcp.rs:178-190 | read by code, the request has message type 3, the server under 54 and the requested address under 50 |
| Dhcp.DiscoverOnWire | src/extensions/networking/protocols/dhcp.rs:99-139 | the discover frame byte by byte: broadcast, from port 68 to 67, from no address to all, and the message |
| Dhcp.RequestOnWire | src/extensions/networking/protocols/dhcp.rs:141-196 | the request frame byte by byte, with the 257 bytes it declares |
| DhcpClient.NetDevice.StartExchange | src/extensions/networking/handler.rs:29-41 | the device starts an exchange with a clear indicator and sends a discover |
| DhcpClient.NetDevice.HandleDhcp | src/extensions/networking/handler.rs:284-335 | taking the state out, matching and putting one back is the client's transition; unmatched packets change nothing |
| DhcpClient.ExchangeOutcome | src/extensions/networking/handler.rs:284-335 | the state after any packets, in terms of the first matching offer and the first ack after it |
| DhcpClient.RunInvariant | src/extensions/networking/handler.rs:284-335 | after any packets: address set, exchange done and indicator true, all or none; the address is the first matching offer's; the phase never goes back; a packet changes something exactly if it is the one waited for |
| DhcpClient.RunSends | src/extensions/networking/handler.rs:298-307 | over any run the client sends the discover and one request for the first matching offer, and no more; building them never fails, and both decode to what was sent |
| Handler.ArpFrameArrives | src/extensions/networking/protocols/arp.rs:152-170 | an ARP frame can always be built and reaches a device as the request or response it was built as |
| Handler.EchoReplyArrives | src/extensions/networking/handler.rs:217-270 | a built echo reply reaches a device as a reply from its source address |
| Handler.DhcpArrives | src/extensions/networking/handler.rs:276-282 | a built datagram from port 67 to 68 reaches a device as the DHCP data in its payload |
| Handler.NotMineIgnored | src/extensions/networking/handler.rs:166-169 | a frame whose first six bytes are neither the device's address nor all ones changes nothing |
| Handler.ResponseIff | src/extensions/networking/handler.rs:173-205 | a frame is an ARP response with given addresses if and only if its bytes say so |
| Handler.EchoReplyIff | src/extensions/networking/handler.rs:217-270 | a frame is an echo reply from an address if and only if its bytes say so |
| Handler.DhcpIff | src/extensions/networking/handler.rs:276-282 | a frame is a DHCP packet if and only if it is a datagram for the device from port 67 to 68 whose payload parses to it |
| Handler.OtherPortsIgnored | src/extensions/networking/handler.rs:336-345 | a datagram with other ports changes no device and no table |
| Handler.OtherProtocolsIgnored | src/extensions/networking/handler.rs:348-361 | a packet of another protocol and a frame of another type change nothing |
| Handler.RequestsAreAnswered | src/extensions/networking/handler.rs:177-194 | an ARP request for the device's address is answered with a frame, given byte by byte, that the asker classifies as the response with this address and the device's mac; another one is not answered |
| Handler.NetworkHandler.HandlePacket | src/extensions/networking/handler.rs:159-363 | handling a frame in place changes devices, tables and sent frames as the value-level reaction does, which the rows above pin to the bytes of the frame, and panics exactly when it does |
| Handler.NetworkHandler.SendArpRequest | src/extensions/networking/handler.rs:92-115 | the binding is stored and one request goes out on every device, with its address or zeros |
| Handler.NetworkHandler.SendPing | src/extensions/networking/handler.rs:116-152 | the binding is stored and one echo request goes out on every device; it panics exactly if one cannot be built |
| Handler.QuestionsOnWire | src/extensions/networking/handler.rs:98-112 | the frame each device sends to resolve an address, byte by byte: a broadcast request from its addresses for this ip |
| Handler.PingsOnWire | src/extensions/networking/handler.rs:126-150 | the frame each device sends to ping, byte by byte: an echo request 0x1234/0x2345 from its ip and mac to the pinged ip and mac |
| Handler.ArpFollows | src/extensions/networking/handler.rs:195-205 | the reaction to an ARP response changes table, address map and answers as in `Arp`, and panics exactly when that does |
| Handler.PingFollows | src/extensions/networking/handler.rs:262-269 | the reaction to an echo reply changes the table, stores the flag and calls the waker as in `Ping` |
| Handler.OthersLeaveTables | src/extensions/networking/handler.rs:159-363 | no other frame changes the tables, answers or wakers |
| Handler.DevicesRunAlone | src/extensions/networking/handler.rs:159-363 | after any frames for any devices, each device is in the state its own DHCP packets lead to |
| Handler.AddressIsFirstOffer | src/extensions/networking/handler.rs:280-335 | whatever raw frames arrive, a started device has an address if and only if its own frames contain a matching offer and later an ack, and it is that of the first matching offer |
| Handler.ServerMessageArrives | src/extensions/networking/handler.rs:280-282 | an offer or ack laid out as in RFC 2131 reaches the device with the transaction, the yiaddr and the siaddr in its bytes |
| Handler.ServerMessageBuilt | src/extensions/networking/handler.rs:280-282 | every datagram from port 67 to 68, to the device or broadcast, built around such a message is one |
| Handler.OfferedAddressIsBound | src/extensions/networking/handler.rs:280-335 | if an offer and later an ack with the client's transaction arrive, among any other frames, the device is bound to the address in bytes 16 to 19 of the first offer |
| Handler.PingBuiltIff | src/extensions/networking/handler.rs:128-147 | a ping can be sent, in a checked build, if and only if a sum of the address words and 0x6b51 has a single carry |
| Handler.UnluckyPing | src/extensions/networking/handler.rs:128-147 | a concrete address that panics |
| Handler.UnverifiedPing | src/extensions/networking/handler.rs:128-147 | the same address pinged by an unchecked build: the header does not verify |
| Network.RunMatchesPing | src/extensions/networking/handler.rs:62-157 | every run of frames, requests, handler, callers and executor is, on the events its frames stand for, a run of `Ping` with the same futures, table, wakers and executor |
| Network.RunMatchesArp | src/extensions/networking/handler.rs:62-157 | and a run of `Arp` with the same calls, table and address map, whose responses are ARP response frames that arrived |
| Network.WakeupFromFrames | src/extensions/networking/handler.rs:262-269 | no lost wakeup from raw frames on: after an echo reply frame was handled the pinging task has a turn, and every continuation past it has polled the future to Ready |
| Network.RunPings | src/extensions/networking/handler.rs:62-157 | the matching run of `Ping` pings the same addresses, and its replies are echo reply frames that arrived |
| Network.AnswersFromFrames | src/extensions/networking/handler.rs:262-269 | whatever frames arrive, a ping that was answered was answered by an echo reply frame that arrived from the ip it pinged |
| Network.ReplyFrameCompletes | src/extensions/networking/handler.rs:262-269 | handling a frame completes a future if and only if the frame is an echo reply from the ip it pinged and it is registered |
| Network.MessagesInOrder | src/extensions/networking/handler.rs:62-70 | the handler takes frames and requests in the order they were sent, and none is lost |
| Network.PollsSurvive | src/extensions/networking/api.rs:42-67 | whatever frames arrive, no `expect` of a poll fails and a waker that is to be called can be |
| Network.RepliesFromFrames | src/extensions/networking/api.rs:8-21 | whatever frames arrive, a call gets at most one answer; what it returns was carried by an ARP response frame from the ip it asked for, and every entry of the address map by one from its ip |
| Network.ResponsePanicsIffDropped | src/extensions/networking/handler.rs:195-205 | an ARP response frame makes the handler panic if and only if the caller waiting for its sender is gone |
| Frames.BootInfoFrameAllocator.AllocateFrame | src/memory.rs:62-80 | call n returns the n-th frame of the flattened list, or none if there are fewer, and moves on by one |
| Frames.NeverTwiceIff | src/memory.rs:62-80 | no frame is handed out twice if and only if the page ranges of the usable regions do not meet |
| Frames.InsideIffAligned | src/memory.rs:62-74 | all frames of a region lie within it if and only if its bounds are page aligned |
| Frames.HandedOutExactly | src/memory.rs:62-80 | for aligned, disjoint regions the frames handed out are distinct and are exactly those in usable regions |
| Frames.InitHeap | src/hardware/allocator.rs:16-44 | mapping the heap succeeds if and only if there are enough frames for its pages and tables and the mapper refuses no page; every frame drawn is used once, and with disjoint regions all are distinct |
| Frames.HeapFramesDistinct | src/hardware/allocator.rs:20-37 | page frames differ from each other and from page table frames |
| Frames.HeapIsCovered | src/hardware/allocator.rs:20-28 | the 256 pages mapped are exactly those with a byte of the heap |
| Screen.Writer.ClearRow | src/vga.rs:99-107 | exactly one row becomes blanks in the current color |
| Screen.Writer.Scroll | src/vga.rs:89-94 | every row holds what the one below it held |
| Screen.Writer.StartLine | src/vga.rs:88-97 | the buffer is the window on an append-only list of rows that has one more blank row |
| Screen.Writer.WriteByte | src/vga.rs:67-86 | the buffer remains the last 25 rows of that list, the column at most 80 |
| Screen.Writer.WriteString | src/vga.rs:111-120 | the buffer remains that window for any string, with bytes that cannot be shown replaced |
| Screen.LinesAreText | src/vga.rs:67-86 | splitting a text at newlines loses nothing: joined again it is the text |
| Screen.TextIsLaidOut | src/vga.rs:67-97 | any text written at the start of a blank row appears as its lines, each in rows of 80, a full row not followed by an empty one |
| Screen.AfterNewlineIsLaidOut | src/vga.rs:67-97 | wherever the cursor stood, text written after a newline is laid out below everything before it |
| Screen.LinesStay | src/vga.rs:111-120 | the lines shown are the lines of the string, byte by byte: printable ASCII stays, anything else in a line becomes 0xfe, newlines stay |
| Screen.StringIsLaidOut | src/vga.rs:111-120 | any string written at the start of a blank row appears as its own lines, so replaced, each in rows of 80 |
| Kiss.StepExactly | src/hardware/rng.rs:24-28 | each multiply-with-carry step leaves a carry of at most 2^58; it is exact, c'·2^64 + z' = (2^58 + 1)·z + c, if and only if the shifted word plus the carry does not overflow, which is when a checked build panics |
| Kiss.OverflowIff | src/hardware/rng.rs:25 | that is if and only if z mod 64 = 63 and c = 2^58 |
| Kiss.OverflowReached | src/hardware/rng.rs:24-28 | a state without carry that is one step from it |
| Kiss.StepsMultiply | src/hardware/rng.rs:24-28 | k steps without overflow multiply c·2^64 + z by (2^58 + 1)^k modulo (2^58 + 1)·2^64 - 1 |
| Kiss.XorshiftStaysNonzero | src/hardware/rng.rs:19-22 | the xorshift word becomes zero only from zero |
| Kiss.XorshiftInjective | src/hardware/rng.rs:19-22 | the xorshift step is injective |
| Kiss.XorshiftIs | src/hardware/rng.rs:19-22 | the xorshift step in arithmetic: exclusive or with the number times 2^13, divided by 2^17 and times 2^43, modulo 2^64 |
| Kiss.LcgIs | src/hardware/rng.rs:17 | the linear congruential step is 6906969069·x + 1234567 modulo 2^64 |
| Kiss.StatesNeverMerge | src/hardware/rng.rs:15-31 | where a call does not overflow, different states have different successors |
| Kiss.Kiss.Rand | src/hardware/rng.rs:15-31 | updating the four fields in sequence is the step on values, and panics exactly when it does; the number returned is the sum of the three words modulo 2^64 |

## Left out

- Dhcp.WalkIsStandard: with pads, or with empty options in an unchecked build, it states no condition that is also necessary, because the walk then reads lengths from the wrong bytes and may meet the message type by chance.
- TxRing.ReclaimIsSafe: the card does not act inside one call of the transmit half; `TxRace` lets it, and there batches have to fit.
- Kernel.Kernel.Run: covers runs whose spawners and wakers take finitely many steps, since the loop must end; `Executor` covers all runs.
- Frames.InitHeap: the overflow of the 64-bit frame counter is not modelled.
- Network.RunMatchesPing: a panic of the handler ends a run; what happened before it is covered. A task pings or resolves one address at a time, and resolving is not part of its scheduling: `get_mac` calls act on their own.
- TxCard.Card.HandleInterrupt: in place, the card acts between calls only; `TxRace` models its steps inside a call on values.
- Echo requests: the source's unfinished reply ends in a panic, and so does the model; its frame is not modelled.
- UDP datagrams for ports other than DHCP: delivery to a bound queue changes none of the modelled state.
- A task whose future has completed is polled again on a wake, as in the source; what such a poll does is up to the future and not modelled.
- Payload closures of the builders are values: the bytes they write and the size they return. Each writes to the start of its slice.
- The storage of wakers (`clone`, `drop`) and of buffers (`into_raw`, `from_raw`) is reduced to which addresses are allocated.
- ACPI and AML, PCI, interrupt and descriptor tables, the boot crate, logging and the keyboard: hardware effects or easy members.
- The queues of `nolock` and the mapper of `x86_64` are assumed to keep their contracts.
