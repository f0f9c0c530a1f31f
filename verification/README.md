# Carrier SDK: verified models

A Dafny model of six components of a peer-to-peer carrier SDK written in C, with proofs of
what they promise. `dafny verify dfyconfig.toml` checks all of it.

| files | component |
|---|---|
| `Bytes`, `Options`, `Numerals`, `Sealing` | bytes, network byte order, positional numbers, facts that proofs open where they need them |
| `Base58` | the base-58 codec and its use for keys |
| `IdAllocator` | the word-packed bitset and the circular id allocator |
| `TimeVals`, `TimerHeap` | the timer heap with its inverse index and free list |
| `LinkedHashtable` | the hash table with its insertion-order list and iterators |
| `FlexBuffers`, `Reassembly`, `Wire`, `StreamLayers` | stream buffers, packet reassembly, frames, the layers of a datagram stream |
| `Multiplexer`, `Callbacks`, `Frames` | one multiplexer endpoint as a state machine, what it tells each channel, and the bytes it sends |
| `TwoPeers`, `PeerEnds`, `PeerSignals` | two endpoints joined by links; which channels lose their other end; holding and releasing |
| `Channels`, `MultiplexHandler`, `HandlerRuns`, `Timeouts` | the handler object with its channels in the linked hash table, its runs, and the times of its channels |
| `BytePeers`, `PeerRuns` | two endpoints, and two handler objects, joined by byte streams |
| `Labels`, `SaveData`, `LegacyData`, `CrashSafety` | friend labels, the data file, conversion of old files, the commit protocol |

Code that works in place is modelled by classes and methods over arrays and linked nodes,
each proved against a specification function; protocols are state machines whose steps are
the calls of the source, and the theorems are about every run of them. The multiplexer is
both: `Multiplexer` gives each step as a function of the endpoint, and `MultiplexHandler` is
the object that performs these steps with its bitset, its hash table and its clocks; the
endpoint, with the logs of callbacks and data, is ghost state of the object.

What the proofs brought to light about the source:

- A store does not look at the 16 MiB limit that a load insists on. A larger section is
  written, replaces the data file, and is refused from then on (`StoreCompletes`).
- A frame of more than 2176 bytes never comes out of reassembly whole. If more than 2176
  bytes of it arrive before its last chunk, it also swallows bytes of the packets behind it
  (`ChunkingIsInvisible`, `OversizedEnd`, `InStepExactly`).
- Nothing keeps the cookie of an opened channel within that size. The request for a channel
  with a longer one never arrives (`LongCookiesAreLost`); from 65536 bytes on the length field
  cuts it, and its rest is read as further packets (`LengthIsCut`).
- Closing a channel before its confirmation sends nothing, and neither do an expiry and a
  shutdown, nor data that a callback refuses. An open channel is never told that its other end
  is gone exactly if that end left in such a way (`LostEndsExactly`, `QuietCalls`,
  `QuietPackets`).
- The bit test of the id allocator shifts an int by up to 63. A release is sure to work
  exactly for ids whose bit number within their word is below 31; others may stay marked, and
  then an allocation can be refused although ids are free, exactly when every id with a low
  bit number is in use (`SureReleases`, `ReleaseCanFail`, `RefusalsExactly`).
- Labels of an old installation are not limited in length, but the field they are copied into
  is (`ConvertAndStart`). An old label file without its last zero byte makes the conversion
  leave its buffer for one size in 256, unless some friend has no label (`CutFileConverts`).
- Old files whose conversion does not load are removed (`FutileStart`).
- The length of the label section stops its reader only where it ends a record (`LengthCounts`).
- Timeouts are computed from truncated milliseconds, and can come up to 999 microseconds early
  (`ExpiryPassed`).
- The failure branch of scheduling a timer, and the stale-id branch of cancelling one, are
  never reached (`ScheduleEntry`, `Cancel`).

## Model

| member | source | states |
|---|---|---|
| `Base58.SizeEstimateSuffices` | src/common/base58.c:51 | for every n, n * 138 / 100 + 1 base-58 digits hold every n-byte number: 256^n <= 58^(that many) |
| `Base58.Encode` | src/common/base58.c:41-78 | with room in the text buffer the result is the canonical text (one '1' per leading zero byte, then the minimal base-58 digits) and its length; without room it reports the needed length and nothing else |
| `Base58.ConvertToBase58` | src/common/base58.c:51-62 | the in-place loop with its high-water mark ends with the value of the input in the digit buffer |
| `Base58.AccumulateByte` | src/common/base58.c:56-61 | one round multiplies by 256 and adds the byte although it stops early; all digits at or left of the new mark are zero; no column before the buffer is touched |
| `Base58.ColumnExists` | src/common/base58.c:55-61 | when the buffer is used up nothing is left to carry |
| `Base58.Decode` | src/common/base58.c:80-156 | -1 with the buffer untouched exactly when a character is foreign or the number is at least 256^datalen; otherwise the number right-aligned in the buffer and the canonical byte count |
| `Base58.ReadLimbs` | src/common/base58.c:87-124 | the limb loop accepts exactly the texts over the alphabet whose number fits datalen bytes, and then holds that number |
| `Base58.AccumulateDigit` | src/common/base58.c:112-117 | multiplies the limbs by 58 and adds the digit; the carry that comes out is exact |
| `Base58.CarryFits` | src/common/base58.c:114-116 | the six-bit mask loses nothing of the carry |
| `Base58.FitsTopLimb` | src/common/base58.c:121-123 | the mask test on the first limb decides whether the number fits datalen bytes |
| `Base58.WriteBytes` | src/common/base58.c:126-144 | the limbs leave as datalen bytes of the same value, the first limb possibly partial |
| `Base58.CanonicalDenotes` | src/common/base58.c:63-75 | the canonical text denotes the number of the bytes and has as many leading '1' as they have leading zeros |
| `Base58.CanonicalCharacters` | src/common/base58.c:63-75 | character by character, the text is a one for every leading zero byte and then the entry of the ordered digits for every minimal digit |
| `Base58.Alphabet` | src/common/base58.c:29-39 | both tables are those of the ordered digits: the character of d is the d-th of the 58, and a character has the digit d if and only if it is the d-th; all others are refused |
| `Base58.RoundTrip` | src/common/base58.c:41-156 | decoding the encoding of n bytes into n bytes gives n and the same bytes |
| `Base58.DecodeIsInverse` | src/common/base58.c:80-156 | whenever decoding reports exactly datalen, encoding the buffer gives the text back |
| `Base58.CanonicalInjective` | src/common/base58.c:41-78 | different byte strings have different texts |
| `Base58.CountIndependentOfBuffer` | src/common/base58.c:146-155 | the reported count does not depend on the buffer size, and a buffer suffices exactly when the number fits |
| `Base58.KeyValidation` | src/carrier/IOEX_carrier.c:61-68 | counting in a 64-byte buffer and decoding into 32 bytes accept the same texts: exactly the canonical texts of 32-byte keys |
| `Base58.IsValidKey` | src/carrier/IOEX_carrier.c:61-68 | accepts exactly the texts of 32-byte keys |
| `Base58.KeyOf` | src/carrier/IOEX_carrier.c:155-170 | accepts exactly the same texts and yields the key each names |
| `IdAllocator.Bitset.Set` | src/common/bitset.h:74-88 | marks one position, keeps the bits beyond the size clear, refuses others |
| `IdAllocator.Bitset.Clear` | src/common/bitset.h:90-104 | unmarks one position |
| `IdAllocator.Bitset.IsSet` | src/common/bitset.h:106-119 | exact for bit numbers below 31 of a word; beyond that it tests whatever the over-wide shift gives |
| `IdAllocator.Bitset.NextClear` | src/common/bitset.c:99-123 | the first unmarked position at or after `from`, -1 exactly if there is none, for every size: the clear tail bits make one comparison enough |
| `IdAllocator.IdsHeap.Alloc` | src/common/ids_heap.c:54-80 | issues the circular next fit and marks it |
| `IdAllocator.IdsHeap.Free` | src/common/ids_heap.c:82-101 | the state after is that of a release with the mask the over-wide shift gave: unmarked exactly when the bit test sees the id, nothing else changes |
| `IdAllocator.RefusesOnlyWhenFull` | src/common/ids_heap.c:66-70 | an id is refused if and only if every id is marked |
| `IdAllocator.IssuesCyclicallyFirst` | src/common/ids_heap.c:66-76 | the id issued is the circularly first unmarked one after the last issued |
| `IdAllocator.FirstIdsAreFresh` | src/common/ids_heap.c:54-80 | in every run of allocations and releases the k-th of the first max_index allocations gets id k |
| `IdAllocator.ReissueNeedsFullRound` | src/common/ids_heap.c:54-101 | between two issues of an id every other id was issued or found marked |
| `IdAllocator.SureReleases` | src/common/bitset.h:106-119 | whatever mask the over-wide shift gives, a release unmarks its id, if and only if the id was unmarked before or its bit number within its word is below 31 |
| `IdAllocator.ReleaseCanFail` | src/common/ids_heap.c:82-101 | a run that shows it: after 33 allocations, releasing id 1 works and releasing id 33, with a mask that has only bit 0, leaves it marked |
| `IdAllocator.LeaksAreHigh` | src/common/ids_heap.c:54-101 | in every run each live id is marked, and a marked id with a low bit number is live: only high ids leak |
| `IdAllocator.RefusalsExactly` | src/common/ids_heap.c:66-70 | the cost: some run with exactly these live ids refuses the next allocation, if and only if every id with a low bit number is among them |
| `TimeVals.Normalize` | src/common/timerheap.c:170-191 | keeps the total milliseconds and reaches the normal form |
| `TimeVals.ComparisonIsByTotal` | src/common/timerheap.c:96-138 | on normal times every comparison macro agrees with total milliseconds |
| `TimeVals.ComparisonNeedsNormalForm` | src/common/timerheap.c:96-138 | without normal form the comparison can be wrong |
| `TimerHeap.RootIsEarliest` | src/common/timerheap.c:308-359 | in an ordered heap no slot is earlier than the root |
| `TimerHeap.ClimbStep` | src/common/timerheap.c:343-356 | moving a gap up past a later parent keeps everything but the gap in order |
| `TimerHeap.SinkStep` | src/common/timerheap.c:313-331 | moving a gap down past the earlier child keeps everything but the gap in order |
| `TimerHeap.OrderWithout` | src/common/timerheap.c:377-392 | the replacement of a removed slot is out of order only downwards if it is not earlier than its parent, and only upwards otherwise |
| `TimerHeap.TimerHeap.constructor` | src/common/timerheap.c:498-543 | an empty heap whose free list holds every id from 1 to the size minus one |
| `TimerHeap.TimerHeap.PopFreelist` | src/common/timerheap.c:287-298 | takes the first id of the chain; chain and live ids still split the table |
| `TimerHeap.TimerHeap.PushFreelist` | src/common/timerheap.c:300-306 | gives an id back to the chain |
| `TimerHeap.TimerHeap.ReheapUp` | src/common/timerheap.c:337-359 | the entry climbs to its place: a permutation, ordered, with the inverse index right for every slot |
| `TimerHeap.TimerHeap.ReheapDown` | src/common/timerheap.c:308-335 | the entry sinks to its place, likewise |
| `TimerHeap.TimerHeap.GrowHeap` | src/common/timerheap.c:399-426 | doubling keeps slots and index and extends the chain by the new ids, also while one id is popped but not stored |
| `TimerHeap.TimerHeap.ScheduleEntry` | src/common/timerheap.c:428-450 | always succeeds, issues an id that is at least 1 and not live, adds exactly this timer and keeps the whole invariant |
| `TimerHeap.TimerHeap.RemoveNode` | src/common/timerheap.c:362-397 | removes exactly the timer of the slot, whichever way the replacement moves, and keeps the whole invariant |
| `TimerHeap.TimerHeap.Schedule` | src/common/timerheap.c:595-629 | refuses an entry that is scheduled; otherwise adds it with now plus the delay, normalised |
| `TimerHeap.TimerHeap.Cancel` | src/common/timerheap.c:452-483 | removes the entry if it is scheduled, reports 0 if not; never meets a stale id |
| `TimerHeap.TimerHeap.FireDue` | src/common/timerheap.c:676-691 | whatever the callbacks schedule and cancel, at whatever time they read, every timer that fires is due and is the earliest on the agenda of that moment, and the agenda afterwards is the one those firings and callbacks lead to; with callbacks that leave the heap alone they fire in order and none is lost |
| `TimerHeap.TimerHeap.Poll` | src/common/timerheap.c:660-708 | the same; unless the limit was reached nothing due by total milliseconds is left, and the delay reported is exactly max(0, earliest - now) |
| `TimerHeap.Drive` | src/common/timerheap.c:428-708 | every run of schedules, cancels and polls, with callbacks that schedule and cancel any entries at the time they read, keeps the whole invariant and does to the heap what it does to a plain map from entries to expiry times; each poll fires the next due entry of that map until none is due or the limit is reached |
| `TimerHeap.NextIsRoot` | src/common/timerheap.c:676-691 | the root of the heap is the next entry on the agenda |
| `LinkedHashtable.Hashtable.GetEntry` | src/common/linkedhashtable.c:264-284 | finds the link to the node of the key in the chain of its hash, or that there is none |
| `LinkedHashtable.Hashtable.Put` | src/common/linkedhashtable.c:286-322 | appends a new key, replaces an old one in its place, refuses an empty key or missing data; chains and list stay the same set of nodes |
| `LinkedHashtable.Hashtable.Get` | src/common/linkedhashtable.c:324-344 | the data of the key if it is listed |
| `LinkedHashtable.Hashtable.Remove` | src/common/linkedhashtable.c:374-408 | takes the key out of chain and list, the others keep their order |
| `LinkedHashtable.Hashtable.Clear` | src/common/linkedhashtable.c:183-206 | releases the data of every entry once, in list order, and leaves an empty table |
| `LinkedHashtable.LinkLast` | src/common/linkedhashtable.c:241-262 | linking before the head makes the node last of the circle |
| `LinkedHashtable.SpliceOver` | src/common/linkedhashtable.c:300-311 | a node takes the place of another in the circle |
| `LinkedHashtable.Unlink` | src/common/linkedhashtable.c:385-399 | the circle closes around a removed node |
| `LinkedHashtable.PutRefinesMap` | src/common/linkedhashtable.c:286-322 | put is the map update; old keys keep their places, a new key comes last |
| `LinkedHashtable.RemoveRefinesMap` | src/common/linkedhashtable.c:374-408 | remove is the map removal and keeps the order of the rest |
| `LinkedHashtable.GetRefinesMap` | src/common/linkedhashtable.c:324-344 | get is the map lookup |
| `LinkedHashtable.CountIsMapSize` | src/common/linkedhashtable.c:241-262 | the count is the size of the map |
| `LinkedHashtable.RunRefinesMap` | src/common/linkedhashtable.c:183-408 | after every run of changes, also through iterators, the listing is that of the map the run leads to |
| `LinkedHashtable.Perform` | src/common/linkedhashtable.c:183-534 | put, remove, clear, and on any iterator creation, next and remove, do to the linked nodes what they do to the values, with the same result |
| `LinkedHashtable.Drive` | src/common/linkedhashtable.c:183-408 | every run of the linked table and any number of iterators on it returns the results the specification says, lists what it says, has the count of changes it says, and keeps the invariant on chains and list |
| `LinkedHashtable.Iterator.Next` | src/common/linkedhashtable.c:454-493 | the entry at the position, 0 exactly at the end, -1 exactly if the counts differ; together with ChangesAreNoticed: exactly after a change made elsewhere |
| `LinkedHashtable.ChangesAreNoticed` | src/common/linkedhashtable.c:454-534 | after every run, next on an iterator that was in step reports a conflict if and only if something in the run put an entry, removed one, cleared a table that was not empty, or removed through another iterator; remove reports one then or when it has nothing to remove |
| `LinkedHashtable.ConflictExactly` | src/common/linkedhashtable.c:286-408 | an iterator is in step with the count of changes exactly as long as nothing else changed the table; the count never goes back |
| `LinkedHashtable.Iterator.Remove` | src/common/linkedhashtable.c:509-534 | removes the entry last returned and stays in step; -1 exactly if there is none or the table changed |
| `LinkedHashtable.VisitAll` | src/common/linkedhashtable.c:430-507 | an undisturbed pass meets every entry once, in insertion order |
| `LinkedHashtable.DrainAll` | src/common/linkedhashtable.c:430-534 | so does a pass that removes each entry, and the table is empty afterwards |
| `FlexBuffers.FlexBuffer.Forward` | src/session/flex_buffer.h:165-177 | drops bytes at the front of the window |
| `FlexBuffers.FlexBuffer.Backward` | src/session/flex_buffer.h:179-189 | takes bytes of the headroom into the window |
| `FlexBuffers.FlexBuffer.Append` | src/session/flex_buffer.h:202-222 | appends as many bytes as there is room for, silently |
| `Reassembly.Reassembler.NotifyData` | src/session/multiplex_handler.c:574-613 | for every chunk and every buffer, also with frames that do not fit: exactly what the specification hands on and keeps; when all packets fit, these are the complete packets in order and the rest |
| `Reassembly.ChunkingIsInvisible` | src/session/multiplex_handler.c:574-613 | however a sequence of packets is cut into chunks, exactly these packets are handed on if and only if each is at most 2176 bytes long |
| `Reassembly.PartialStream` | src/session/multiplex_handler.c:574-613 | in the middle of a packet the packets before it were handed on and the buffer holds a strict prefix of it |
| `Reassembly.CutLater` | src/session/multiplex_handler.c:574-613 | cutting a longer stream starts with the packets of the shorter one |
| `Reassembly.FeedFits` | src/session/multiplex_handler.c:574-613 | when everything fits the buffer, the rounds hand on the complete packets of what is buffered and new, and keep the rest |
| `Reassembly.NotifyAll` | src/session/multiplex_handler.c:574-613 | chunk after chunk the object hands on and keeps what the specification says |
| `Reassembly.OversizedSoFar` | src/session/multiplex_handler.c:586-600 | while a frame of more than 2176 bytes arrives, nothing is handed on and the buffer fills up with its beginning |
| `Reassembly.OversizedEnd` | src/session/multiplex_handler.c:586-611 | at its end as many bytes of what follows are swallowed as chunks before had dropped; then a cut-off frame that no reader accepts is handed on, and the stream continues behind the swallowed bytes |
| `Reassembly.InStepExactly` | src/session/multiplex_handler.c:586-611 | whatever follows an oversized frame comes through in full, if and only if at most 2176 bytes of the frame arrived before its last chunk |
| `Bytes.PutValues` | src/session/multiplex_handler.c:279-281 | network byte order: the bytes are the digits of the number in base 256, the most significant first, cut to two or four bytes |
| `Bytes.GetValues` | src/session/multiplex_handler.c:384-393 | reading is the value of the bytes as such digits |
| `Wire.ParseEncode` | src/session/multiplex_handler.c:269-283 | what is sent is a well-formed frame and reads back as the packet with both channel ids in place |
| `Wire.EncodeParse` | src/session/multiplex_handler.c:373-382 | every frame that is accepted is the encoding of the packet that is read |
| `Wire.EncodeIsFrame` | src/session/multiplex_handler.c:273-281 | byte by byte: type, option, channel of the receiver, channel of the sender and length, these three with their values in network byte order, then the payload |
| `Wire.ParseIsFrame` | src/session/multiplex_handler.c:373-393 | a frame is accepted if and only if the value of its length bytes is right, and is read by its bytes |
| `Wire.LengthIsCut` | src/session/multiplex_handler.c:269-283 | a payload of 65536 bytes or more goes out as a packet with its first bytes, as many as the low sixteen bits say, and the rest stands where the next packet should begin |
| `StreamLayers.CryptoWrite` | src/session/crypto_handler.c:39-81 | the sealed payload stands in a new buffer with headroom left for the layers below |
| `StreamLayers.CryptoReceive` | src/session/crypto_handler.c:83-122 | hands up the opened payload exactly if the box is longer than its authenticator and opens |
| `StreamLayers.IceWrite` | src/session/ice.c:1093-1124 | the datagram is the four-byte header and the data |
| `StreamLayers.IceReceive` | src/session/ice.c:784-813 | accepts exactly data packets of the announced length and gives their data new headroom |
| `StreamLayers.StreamWrite` | src/session/session.c:874-907 | refuses empty and oversized data; otherwise sends one datagram with the sealed, framed payload, whose length field holds |
| `StreamLayers.Transparent` | src/session/session.c:874-907 | for every combination of multiplexer and crypto: a write is accepted if and only if it has 1 to 2048 bytes, and every accepted payload is delivered as it was written |
| `Multiplexer.CallbackProtocol` | src/session/multiplex_handler.c:395-570 | for every sequence of packets, calls and expiries, each channel's callbacks have opened first and once, pending and resume alternating, at most one close and nothing after it; outside the table a channel that saw anything was closed |
| `Multiplexer.RunKeepsTraces` | src/session/multiplex_handler.c:356-917 | every run keeps each channel of the table in the phase its status says, and every other one untouched or closed |
| `Multiplexer.PacketKeepsTraces` | src/session/multiplex_handler.c:395-570 | every received packet keeps the traces right |
| `Multiplexer.CallKeepsTraces` | src/session/multiplex_handler.c:615-917 | every call and every decision of the checkpoint does |
| `Multiplexer.PhaseInWords` | src/session/multiplex_handler.c:395-570 | a trace that follows the protocol automaton has the order of callbacks in plain words |
| `Multiplexer.PhaseAlternates` | src/session/multiplex_handler.c:530-556 | on such a trace pending and resume alternate, pending first |
| `Callbacks.CallbacksExactly` | src/session/multiplex_handler.c:395-570 | what each packet, call and decision tells every single channel, with payload and reason, by the types on the wire; a channel leaves the table exactly if it is told that it is closed, and no other is told anything |
| `Callbacks.ReasonsTell` | src/session/multiplex_handler.c:395-917 | in every run each close callback has a cause that gives its reason: timeout an expiry, error a refusal, refused data or an answer that cannot be sent, normal a close call here or a close packet from there; or a shutdown with that reason |
| `Frames.CallFrames` | src/session/multiplex_handler.c:641-782 | the bytes that opening, closing and writing send, and exactly when: writing on a channel that is open or pending |
| `Frames.SignalFrames` | src/session/multiplex_handler.c:784-917 | the bytes of a pend, a resume and a keep-alive; an expiry and a shutdown send nothing |
| `Frames.AnswerFrames` | src/session/multiplex_handler.c:395-480 | the bytes of the answer to a request, and that nothing else is answered; without an id left the answer names no channel |
| `Frames.RequestMakes` | src/session/multiplex_handler.c:395-480 | a request makes a channel, with the type and the other end it names, exactly if the type is permitted, an id is free, the callback accepts and the answer is taken |
| `Frames.CallMakes` | src/session/multiplex_handler.c:641-715 | opening makes a channel of the type that waits for its other end, exactly if the type is known, an id is free and the packet is taken |
| `Frames.IdsRunOut` | src/session/multiplex_handler.c:429-440 | ids are 1 to 2048, and there is none left exactly if all are marked |
| `Frames.WritesGoOut` | src/session/multiplex_handler.c:743-782 | in every run of two peers a write on a channel whose other end is known goes out and is logged, also while the channel is pending |
| `MultiplexHandler.Handler.NotifyFrame` | src/session/multiplex_handler.c:363-393 | drops what is not well-formed and otherwise does the step of the packet it reads |
| `MultiplexHandler.Handler.NotifyPacket` | src/session/multiplex_handler.c:384-570 | the object, its channels in the linked hash table, does exactly the packet step: table, ids, callbacks and answers, and the times of the channels |
| `MultiplexHandler.Handler.AnswerOpen` | src/session/multiplex_handler.c:395-480 | an open request is ignored, refused or answered, with the channel created, kept or dropped again |
| `MultiplexHandler.Handler.OpenChannel` | src/session/multiplex_handler.c:641-715 | the call step for opening, with the id issued as result |
| `MultiplexHandler.Handler.CloseChannel` | src/session/multiplex_handler.c:717-741 | the call step for closing |
| `MultiplexHandler.Handler.WriteChannel` | src/session/multiplex_handler.c:743-782 | writes on the raw stream or on an open channel and reports the length, refuses everything else; the channel's times show it |
| `MultiplexHandler.Handler.Signal` | src/session/multiplex_handler.c:784-854 | pending and resuming send a packet if the channel is open and the lower layer takes it, and change only the channel's times |
| `MultiplexHandler.Handler.CloseChannels` | src/session/multiplex_handler.c:615-638 | the pass over the table through its iterator empties it; each channel gets exactly one close, no other callback is made |
| `MultiplexHandler.ClosingsMean` | src/session/multiplex_handler.c:615-638 | closing channels one by one takes exactly them out of the table and adds exactly one close to each trace |
| `MultiplexHandler.Handler.Checkpoint` | src/session/multiplex_handler.c:856-917 | the pass over the table through its iterator, removing as it goes: exactly the channels whose clock ran out get one close and leave, those silent for long get a keep-alive, each with its own answer of the lower layer, the times of all others stay |
| `MultiplexHandler.DecisionsMean` | src/session/multiplex_handler.c:856-917 | the decisions of a checkpoint close exactly the expired channels and make no other callback |
| `Timeouts.ExpiryPassed` | src/session/multiplex_handler.c:880-907 | in microseconds: a channel is timed out if its timeout is not zero and that many seconds passed since the last activity, or 130 seconds since anything was heard, and due for a keep-alive 30 seconds after anything was sent; each up to 999 microseconds early, exactly where the microseconds of now are the fewer |
| `Timeouts.CheckpointCloses` | src/session/multiplex_handler.c:877-903 | a checkpoint tells exactly the channels that are timed out so that they are closed for a timeout, takes them away, and leaves all others as they were |
| `Timeouts.CheckpointReminds` | src/session/multiplex_handler.c:905-914 | it sends nothing but keep-alives, type 4, exactly for the channels that stay, were silent for 30 seconds and whose packet is taken |
| `Timeouts.CheckpointTimes` | src/session/multiplex_handler.c:909-914 | a keep-alive that is taken is the last thing sent, no other time moves |
| `Timeouts.ReceiptTimes` | src/session/multiplex_handler.c:482-556 | a packet that means something to its channel is heard and is activity, a keep-alive is only heard, and no packet touches the last thing sent or another channel |
| `Timeouts.SendingTimes` | src/session/multiplex_handler.c:769-854 | sending data, a pend or a resume is activity and the last thing sent |
| `Timeouts.FirstTimes` | src/session/multiplex_handler.c:440-480 | a channel the peer asked for has no timeout of its own, was just heard of, and nothing was sent on it |
| `Timeouts.RequestTimes` | src/session/multiplex_handler.c:641-715 | a channel opened here times out when its timeout or 130 seconds have passed since |
| `Timeouts.HeardIsNotTimedOut` | src/session/multiplex_handler.c:856-917 | in every run of a handler, a channel without timeout that heard a keep-alive or data survives every checkpoint in the 129.999 seconds after it |
| `Timeouts.RunHasHistory` | src/session/multiplex_handler.c:356-917 | every run that the object does has the states that this is about, each following from the one before |
| `HandlerRuns.Perform` | src/session/multiplex_handler.c:356-917 | every operation is exactly the run of the endpoint that it stands for, sends what that run sends, and leaves the times it should |
| `HandlerRuns.Drive` | src/session/multiplex_handler.c:356-917 | so is every sequence of frames, calls, checkpoints and shutdowns: state, packets sent and times are those of the inputs that its operations stand for, one part for each |
| `HandlerRuns.Serve` | src/session/multiplex_handler.c:356-917 | from its creation on, the object's own log of callbacks follows the callback protocol for every channel |
| `Channels.ChannelIndex.Put` | src/session/channels.h:53-61 | a new id goes to the end of the order with its address |
| `Channels.ChannelIndex.Get` | src/session/channels.h:63-67 | the address stored for the id, none exactly if there is none |
| `Channels.ChannelIndex.Remove` | src/session/channels.h:81-85 | the id leaves, the others keep their order |
| `Channels.ChannelIterator.Next` | src/session/channels.h:100-105 | the id at the position with its address, false exactly at the end |
| `Channels.ChannelIterator.Remove` | src/session/channels.h:113-118 | takes the id last returned out of the table and stays in step |
| `TwoPeers.PeersAreFaithful` | src/session/multiplex_handler.c:255-782 | in every run of two peers over lossless FIFO links with at most 2048 channels made on each side: an open channel is paired with the one channel made for the other's open packet; what was delivered on one end is a prefix of what was written on the other, all of it when nothing is on the way; nothing is delivered from elsewhere; the stream on channel 0 loses and gains nothing |
| `TwoPeers.AdvanceKeepsInv` | src/session/multiplex_handler.c:356-782 | every step of either side keeps the pairing, the addressing of all packets on the way, the order of confirmation before data and the conservation of data |
| `TwoPeers.DeliveryKeeps` | src/session/multiplex_handler.c:356-570 | so does the receipt of any packet, whatever the callbacks answer |
| `TwoPeers.CallKeeps` | src/session/multiplex_handler.c:641-854 | so does any call, whether or not the lower layer accepts the packet |
| `TwoPeers.DataFindsOpen` | src/session/multiplex_handler.c:504-512 | data never reaches a channel that still waits for its confirmation |
| `TwoPeers.LinkedUnique` | src/session/multiplex_handler.c:395-502 | a channel has at most one other end |
| `PeerEnds.LostEndsExactly` | src/session/multiplex_handler.c:395-782 | in every run of two peers within the ids, for every open channel exactly one holds: its other end is there, a close packet for it is on the way, or the other end left without sending one |
| `PeerEnds.QuietCalls` | src/session/multiplex_handler.c:615-741 | the calls that end a channel without a close packet: closing it before its confirmation or when the lower layer does not take the packet, every expiry, and every shutdown, and no other |
| `PeerEnds.QuietPackets` | src/session/multiplex_handler.c:482-570 | the packets that end a channel of the table without a close packet: a refusal, data that its callback refuses, and a close packet of its own other end, and no other |
| `PeerEnds.EarlyCloseLosesEnd` | src/session/multiplex_handler.c:729-737 | a run that shows it: opened, closed before the confirmation, and the other side is left with an open channel |
| `PeerEnds.StepInforms` | src/session/multiplex_handler.c:395-782 | a step of one side keeps the other informed: a channel whose open packet is on the way can only leave quietly, any other that leaves sends its close packet to its only other end |
| `PeerEnds.StepStaysInformed` | src/session/multiplex_handler.c:395-782 | a step of one side leaves it informed of the other, also of the end for which it has just made a channel |
| `PeerSignals.SignalsAreFaithful` | src/session/multiplex_handler.c:530-556 | in every run of two peers within the ids: the pending and resume callbacks on one end are the effects of the first so many pend and resume calls on the other end that were sent; while the end is there, of all but those on the way, and it is pending exactly if the last of them was a pend |
| `PeerSignals.AskingKeeps` | src/session/multiplex_handler.c:784-854 | a step of one side keeps account of what it asked: a signal goes to the only other end of its channel, behind the confirmation |
| `PeerSignals.HearingKeeps` | src/session/multiplex_handler.c:395-570 | and of what it heard: what arrived is the beginning of what was asked, the rest is on the way while the channel is there |
| `BytePeers.ChunkCuts` | src/session/multiplex_handler.c:574-613 | whatever chunk of the bytes on the way arrives, the frames handed on are the next packets of the link, whole, and the rest stays on the way |
| `BytePeers.BytesSimulate` | src/session/multiplex_handler.c:255-782 | two endpoints joined by byte streams through their reassembly buffers, with chunks cut anywhere, do exactly moves of the two peers with packet links, as long as every cookie and payload makes a packet of at most 2176 bytes |
| `BytePeers.BytePeersAreFaithful` | src/session/multiplex_handler.c:255-782 | so the pairing and the conservation of data hold for the byte streams, with the packets whose bytes are in the buffers and on the wires |
| `BytePeers.LongFramesAreLost` | src/session/multiplex_handler.c:574-613 | a longer frame that arrives in one piece is cut off and ignored, and changes nothing |
| `BytePeers.LongCookiesAreLost` | src/session/session.c:987-1012 | the bound is needed: at any point of any run, a cookie of less than 65536 bytes that is too long for the buffer, which no caller is kept from passing, opens a channel on one side; however its bytes then arrive, the other side ends up as if nothing had been sent |
| `PeerRuns.Converse` | src/session/multiplex_handler.c:255-982 | two handler objects with their reassembly buffers, from their creation on: every run of operations and arriving chunks is the run of the byte system that these stand for, with the clocks of both objects, and the peers are faithful when every cookie and payload fits and no side runs out of ids |
| `SaveData.Round256Bounds` | src/carrier/IOEX_carrier.c:385 | the room of a section of s bytes is a multiple of 256 between s + 65 and s + 320 |
| `SaveData.BuildImage` | src/carrier/IOEX_carrier.c:888-919 | the buffer filled through moving pointers is the file image of the savedata and the labels |
| `SaveData.StoreThenLoad` | src/carrier/IOEX_carrier.c:560-657 | loading an image gives both sections back if and only if both are at most 16 MiB; otherwise the file is refused |
| `SaveData.FramedLoads` | src/carrier/IOEX_carrier.c:560-657 | whatever stands in the padding, a file with the right digest loads if and only if both sections are within the limit |
| `SaveData.TornRefused` | src/carrier/IOEX_carrier.c:574-615 | every strict prefix of a file that passes the size checks fails them, before any checksum |
| `SaveData.ParsedIsSealed` | src/carrier/IOEX_carrier.c:560-657 | a file that loads has the magic number, revision, lengths and digest at their places, lengths within 16 MiB and a size that fits, and gives the bytes at the places of the sections |
| `SaveData.SealedIsParsed` | src/carrier/IOEX_carrier.c:560-657 | and a file that has all that loads |
| `SaveData.ImageLayout` | src/carrier/IOEX_carrier.c:896-919 | what a store writes, byte by byte, zeros included |
| `SaveData.DamagedRefused` | src/carrier/IOEX_carrier.c:643-649 | a file that loads, with its body replaced by one of another digest, is refused |
| `SaveData.SaveAndRestart` | src/carrier/IOEX_carrier.c:734-919 | a node stored and started again has its savedata and exactly its labels back, if and only if both sections are within the limit; reading never leaves the loaded data |
| `Labels.FriendTable.ExtraSize` | src/carrier/IOEX_carrier.c:813-837 | the size computed beforehand is the size of the records written |
| `Labels.FriendTable.WriteExtra` | src/carrier/IOEX_carrier.c:839-871 | writes the labelled records that fit, in order, and touches no other byte |
| `Labels.RoomSuffices` | src/carrier/IOEX_carrier.c:839-871 | with that size as room every labelled record is written |
| `Labels.EntryBytes` | src/carrier/IOEX_carrier.c:855-866 | a record byte by byte: the number in network byte order, the label, a zero |
| `Labels.FriendTable.ApplyExtra` | src/carrier/IOEX_carrier.c:734-761 | on any bytes: it stays within the data and within the label fields if and only if the section reads to its end and no label of a known friend is longer than 63 bytes; then every known friend in the list has its last label there |
| `Labels.SectionRead` | src/carrier/IOEX_carrier.c:734-761 | a section that begins with a list of labelled records and ends there, or goes on with a record without label, is read as exactly that list |
| `Labels.LengthCounts` | src/carrier/IOEX_carrier.c:738-760 | a section length that ends a record stops the reader there, and any other, because the count wraps around, does not stop it before the first record without label |
| `Labels.LabelsRestored` | src/carrier/IOEX_carrier.c:734-871 | on the same friends without labels the saved records restore exactly the saved labels |
| `LegacyData.Compact` | src/carrier/IOEX_carrier.c:475-498 | on any bytes: the in-place loop stays within its buffer if and only if it finds that many records; then it leaves the encoding of the labelled ones, in order and in network byte order, zeros up to the end of the list, and everything else as it was |
| `LegacyData.MoveRecord` | src/carrier/IOEX_carrier.c:485-494 | a record moves to the write pointer and no unread byte changes |
| `LegacyData.ConvertOld` | src/carrier/IOEX_carrier.c:430-519 | from any two old files, with key, count, a zero count followed by bytes, and a missing or short label file, exactly the converted file; it fails if and only if the records or the result leave the buffer |
| `LegacyData.ConvertedLoads` | src/carrier/IOEX_carrier.c:430-657 | a converted file loads if and only if both sections are within the limit, and what is read of it are the labelled records of the old file |
| `LegacyData.ConvertAndStart` | src/carrier/IOEX_carrier.c:394-761 | convert, load and apply: the savedata is back, and the labels of the old file are those of the friends if and only if no label of a known friend is longer than 63 bytes |
| `LegacyData.OldReadsBack` | src/carrier/IOEX_carrier.c:475-498 | an old list of records reads back as it was written, whatever comes behind it |
| `LegacyData.HostOrder` | src/carrier/IOEX_carrier.c:476-486 | numbers of the old file have their least significant byte first on one kind of host and last on the other |
| `LegacyData.ZeroCountConverts` | src/carrier/IOEX_carrier.c:418-470 | with a count of zero the bytes behind it become a section of as many zeros; a missing or short label file gives none |
| `LegacyData.OldFileConverts` | src/carrier/IOEX_carrier.c:430-519 | the label file of an old installation converts to the image that a store of its labelled records writes |
| `LegacyData.CutFileConverts` | src/carrier/IOEX_carrier.c:418-502 | for every list of records: a label file that lacks the zero byte of its last label converts if and only if its records part does not have 191 bytes modulo 256, or some record has no label; otherwise the result leaves the buffer |
| `CrashSafety.FileFormatLawful` | src/carrier/IOEX_carrier.c:560-657 | the file format has what the commit protocol needs: images load within the limits, and no strict prefix of any file that loads does |
| `CrashSafety.OldIsUnbroken` | src/carrier/IOEX_carrier.c:574-615 | no part of a converted file of at most 4 GiB loads, whether or not the file itself does |
| `CrashSafety.DamagedNeverLoads` | src/carrier/IOEX_carrier.c:643-732 | so a start passes over a damaged journal, and loads nothing from a damaged data file |
| `CrashSafety.DataFileIsCrashAtomic` | src/carrier/IOEX_carrier.c:394-957 | at every point of every run of stores, conversions of old files, failures, crashes with torn writes, and starts, the disk loads the sections committed last or those of a store or start under way or cut by a crash, whole; when a running node is idle, also after a failed store, and before anything is written, exactly those committed last; from the sync of the journal on exactly the new ones; and never nothing once something is committed |
| `CrashSafety.CrashAtomic` | src/carrier/IOEX_carrier.c:932-954 | the same for any formats in which no part of a file passes for a whole one |
| `CrashSafety.NeverLost` | src/carrier/IOEX_carrier.c:932-954 | once committed, always something to load |
| `CrashSafety.StepKeeps` | src/carrier/IOEX_carrier.c:679-954 | every single file-system call, failure, crash and start keeps the invariant |
| `CrashSafety.BootLoads` | src/carrier/IOEX_carrier.c:679-729 | an undisturbed start loads what the disk says and leaves it as the data file |
| `CrashSafety.FutileStart` | src/carrier/IOEX_carrier.c:534-556 | a start that converts old files to one that does not load removes them all the same, and nothing loads any more |
| `CrashSafety.StoreCompletes` | src/carrier/IOEX_carrier.c:932-954 | a completed store leaves its sections to load if and only if they are within the limit, and otherwise nothing |
| `CrashSafety.DataFiles.StoreData` | src/carrier/IOEX_carrier.c:932-954 | the calls of a store in order, with their failures |
| `CrashSafety.DataFiles.ConvertData` | src/carrier/IOEX_carrier.c:534-556 | the calls of a conversion in order, with their failures |
| `CrashSafety.DataFiles.LoadData` | src/carrier/IOEX_carrier.c:667-732 | journal first, then the data file, then an old installation; returns what the disk loads and leaves the files as the start steps do; when a conversion cannot write its result it returns nothing and leaves the old files intact |

## Left out

- Locks, threads, sockets and timers of the system: every call is one atomic step, and the callbacks of a stream do not call back into it. Callbacks of timers may schedule and cancel timers.
- Time in TwoPeers and BytePeers: which channels expire or get a keep-alive there is arbitrary. The handler object has its clocks, given with every operation.
- Channels.ChannelIndex.Get: for id 0, which no channel has, it finds nothing; the source asserts that the key, the id as a pointer, is not null, and finds nothing where assertions are off.
- PeerRuns.Converse: as in HandlerRuns.Drive, the order in which the tables are gone through is any order of their channels.
- HandlerRuns.Drive: the order in which a run goes through the table at a checkpoint or a shutdown is any order of its channels there; Checkpoint and CloseChannels themselves go by the table.
- Reference counting, failing allocations and destructors: an id is freed when its channel leaves the table.
- Channel ids issued again after 2048 channels, and with them the reply sent when ids run out, as far as pairing is concerned: TwoPeers is about runs within the first 2048 channels of each side. The reply itself is part of every step.
- Fixed-width counters: ids, modification counts and times are unbounded integers; payloads of 65536 bytes or more are outside ParseEncode, LengthIsCut says what becomes of them.
- IdAllocator.Bitset.IsSet: the over-wide shift, undefined in C, may give any mask.
- Words of the bitset are given by their 64 bits; the two digit tables of the codec by the runs of characters they consist of.
- StreamLayers.Transparent: the cipher is any pair of functions where opening undoes sealing and adds 16 bytes; the datagram arrives.
- LegacyData.ConvertOld: a file that exists can be read; the loop counter, a signed int in the source, is unbounded.
- CrashSafety.DataFileIsCrashAtomic: removing and renaming succeed and take effect in order; a crash in a write or before its sync leaves any prefix; what is saved is within the limit, as StoreCompletes says it must be, and what old files convert to has at most 4 GiB.
- CrashSafety.DataFiles.LoadData: failing reads of an existing file are not modelled; a conversion that leaves its buffer is undefined.
- SHA-256 is any function to 32 bytes; that two different bodies have different digests is left to it.
- The hash table's custom hash and comparison: any hash, keys compared as bytes; a node is put into at most one table. The comparison of friend ids as C strings, which stops at a zero byte, is not modelled.
- `src/session/reliable_handler.c`, ICE negotiation, the DHT, libsodium, message encoding, port forwarding sockets, file transfer, sessions and the applications: wrappers around code that is not part of the repository, or input and output.
- The reverse and set-bit searches of the bitset, linked lists, timer dump and statistics: nothing in the model calls them.
