# A Dafny model of SRT's data path, keying path and socket registry

Four stateful parts of SRT (Secure Reliable Transport), modelled in Dafny 4.11 with proofs about them:

* **Receiver buffer** (`CRcvBuffer`): a circular array of packet units with three derived positions. `RcvModel` gives its
  operations as functions on the window seen from the start position; `RcvBuffer` has the class with the array, the wrapped
  positions and the loops, each method proved against those functions. `RcvIntact`, `RcvSound` and `RcvRun` prove what
  every run of all operations keeps in every mode, `RcvSearch` and `RcvRun` which calls return, `RcvInvariant` and
  `RcvMessages` what message mode keeps beyond that, `RcvStreamDrops` and `RcvStreamRun` exactly where stream mode falls
  short of it. `RcvDelivery`, `RcvInOrder`, `RcvRescan` and `RcvStream`
  prove what readers get, `RcvMarks` what a drop request marks, `RcvLedger` and `RcvCounters` what the counts mean.
  `RcvExamples` and `RcvFileRead` have the states of concrete runs.
* **Sender buffer** (`CSndBuffer`): a circular list of blocks over shared payload arrays. `SndModel` is a queue of packets
  with a send cursor, `SndRing` and `SndBuffer` are the linked blocks and the class, `SndRun` proves whole runs. `EndToEnd`
  joins both buffers by a network that loses, reorders and repeats packets.
* **HaiCrypt keying**: the fallback AES key wrap (`KeyWrap`, RFC 3394), Keying Material messages (`KmMessage`, `KmStale`,
  section 3.2.2 of draft-sharabayko-srt-01), the even/odd key rotation (`TxRotation`, `TxSafety`, section 6.1.6 of that
  draft), both sides together (`KeyAgreement`), counter mode (`CtrStream`, `SealedPackets`), and the sessions in place
  (`CryptoSession`, `RxSession`).
* **Socket registry** (`CUDTUnited`): ID generation (`SocketIds`), and socket lifetime and multiplexer counts as atomic steps
  under the global lock (`SocketRegistry`) with the maps and loops in place (`SocketTable`).

`SeqNo` has the 31-bit circular arithmetic, `Packets` what both buffers know of a packet.

Sequence numbers in the models are unbounded, and the 31-bit value is `Wrap` of them; arrivals are taken to lie within half
the range of the receiver's window, which is the exact condition for `seqoff` to be right (`SeqNo.SeqOffExactIff`). Clocks
are parameters (`now`, `due`, which sockets are broken or timed out), TSBPD is an on/off flag, the unit queue is the set of
unit identities that are taken. AES is an arbitrary permutation with its inverse for each key, PBKDF2 an arbitrary function,
generated keys are fresh values.

Where the code and its comments differ, or the code does not keep what one would expect of it, the code is followed, a
concrete input shows the failure, and the condition under which it does keep it is proved exact:

* `readMessage` does not look for readable packets again after clearing read entries (the call is commented out), so a
  whole message can stay unreadable: a history in `RcvRescan.StuckHistory`, the condition in `RcvRescan.StuckIff`.
* In stream mode a dropped entry can come to stand at the start, and the next `dropMessage` then leaves the first
  non-readable position beyond everything stored, so an empty buffer claims to have packets and `readBuffer` meets a null
  unit and returns -1: a run in `RcvStreamDrops.BrokenRun`, the conditions in `ReadKeepsIff` and `DropKeepsPrefixIff`.
* No drop resets `m_iNotch`, so a drop request for the partly read packet can leave it outside the next one: a run in
  `RcvStreamDrops.StrayNotch`, the conditions in `DropMessageNotchIff` and `DropUpToNotchIff`. Over whole runs in stream
  mode what counts as readable is stored and the notch is inside if and only if every step meets its conditions
  (`RcvStreamRun.StreamRunIff`).
* `readBufferTo` does not count `m_numOutOfOrderPackets` down, and `recvfile` lets it run in message mode: an input in
  `RcvFileRead.FileReadMiscounts`, the condition in `RcvSound.FileReadSoundIff`, and the exact surplus over every run in
  `RcvRun.RunIntact`.
* The search of `updateFirstReadableOutOfOrder` counts down only at order-clear packets, and stops early only there. With
  that count too high and none stored it goes round the ring for ever: a run in `RcvFileRead.HangRun`. It returns if and
  only if a guard at its beginning lets it be skipped or an order-clear packet is stored (`RcvSearch.HaltsIff`, for each
  operation `RcvRun.ReturnsIff`), which is so as long as no order-clear packet was read into a file in message mode
  (`RcvRun.RunReturns`). A run in the model is one of calls that return.
* `m_iPktsCount` goes down by one per `readBuffer` call: an input in `RcvStream.PktsDrift`, the condition in
  `RcvStream.PktsExactIff`.
* A packet that `dropMessage` marks after it was read out of order is counted twice: a run in `RcvLedger.CountedTwice`; the
  surplus is the number of read entries in the range (`RcvLedger.RecountedIs`).
* The debug assertion that closes a TTL drop compares with the block after the message. It holds whenever a message is
  queued after it (`SndRun.DropsRest`, last clause) and in general if and only if that block carries the next number
  (`SndBuffer.SenderBuffer.ReadAgainData`). For the last queued message the block is free; nothing sets its number, so it
  is whatever a fresh block holds or what an earlier message left there (`SndBuffer.StaleBlock`).
* The length tests of the key unwrapping accept 0, where the unsigned subtraction wraps (`KeyWrap.GuardsIff`). The only
  caller's lengths are at least 24 (`KmMessage.WrappedLength`).
* A Keying Material message can be refused though made with the right password (`KmStale.StaleKek`, exact condition in
  `KmMessage.RoundTrip`).
* Calling `ManageKM` twice without a packet in between undoes a switch (`TxSafety.SwitchesBack`, exact condition in
  `TxSafety.WrongSwitchIff`).

Check everything with `dafny verify dfyconfig.toml`.

## Model

| member | source | states |
|---|---|---|
| `SeqNo.SeqOffExactIff` | srtcore/common.h:678-687 | the signed offset of two sequence numbers is their true distance, from every start, if and only if that distance is below half the range |
| `SeqNo.SeqOffLands` | srtcore/common.h:678-687 | going ahead by a non-negative offset lands on the second number |
| `SeqNo.WrapIncBy` | srtcore/common.h:695-699 | adding to a wrapped number is wrapping the sum |
| `RcvRing.IsInRangeIff` | srtcore/buffer_rcv.cpp:81-93 | the wrapped range test holds exactly when the distance from the start is within the occupied part |
| `RcvRing.OffIncPos` | srtcore/buffer_rcv.h:258-260 | advancing a ring position and measuring the distance undo each other |
| `RcvRing.RotatedUpdate` | srtcore/buffer_rcv.h:258-260 | writing one array slot is writing one slot of the window seen from the start |
| `RcvBuffer.ReceiverBuffer.constructor` | srtcore/buffer_rcv.cpp:117-137 | an empty buffer that meets the invariant |
| `RcvBuffer.ReceiverBuffer.Insert` | srtcore/buffer_rcv.cpp:151-207 | the array insert does what the window model says, with its four result codes, and keeps the invariant |
| `RcvBuffer.ReceiverBuffer.DropUpTo` | srtcore/buffer_rcv.cpp:209-257 | drops up to a sequence number as in the model, with both counts, whenever the call returns |
| `RcvBuffer.ReceiverBuffer.DropAll` | srtcore/buffer_rcv.cpp:259-267 | drops everything as in the model, whenever the call returns |
| `RcvBuffer.ReceiverBuffer.DropMessage` | srtcore/buffer_rcv.cpp:269-391 | both marking loops, the clean-up and the count are those of the model, whenever the call returns |
| `RcvBuffer.ReceiverBuffer.ReadMessage` | srtcore/buffer_rcv.cpp:393-498 | reads from the start or out of order as in the model: same state, same bytes, whenever the call returns |
| `RcvBuffer.ReceiverBuffer.ReadBuffer` | srtcore/buffer_rcv.cpp:528-602 | the read of bytes with its partial-packet notch, its early ends and the return of -1 at a null unit is that of the model, in every mode and from every state that a run reaches; in message mode the order-clear count gets too high by just the order-clear packets released |
| `RcvBuffer.ReceiverBuffer.AlwaysReturns` | srtcore/buffer_rcv.cpp:947-1008 | with the order-clear count exact, every operation on the buffer returns |
| `RcvBuffer.ReceiverBuffer.ReleaseUnitInPos` | srtcore/buffer_rcv.cpp:783-789 | gives the unit of a slot back and empties it |
| `RcvBuffer.ReceiverBuffer.DropUnitInPos` | srtcore/buffer_rcv.cpp:791-807 | as above, and the order-clear count and the record follow |
| `RcvBuffer.ReceiverBuffer.ReleaseNextFillerEntries` | srtcore/buffer_rcv.cpp:809-822 | the loop passes exactly the read and dropped entries at the start |
| `RcvBuffer.ReceiverBuffer.UpdateNonreadPos` | srtcore/buffer_rcv.cpp:825-858 | the nested scans reach the end of the last whole message that follows without a gap |
| `RcvBuffer.ReceiverBuffer.OnInsertNotInOrderPacket` | srtcore/buffer_rcv.cpp:875-917 | records the message that the new packet completes, as in the model |
| `RcvBuffer.ReceiverBuffer.CheckFirstReadableOutOfOrder` | srtcore/buffer_rcv.cpp:919-945 | tells whether the recorded message is still whole |
| `RcvBuffer.ReceiverBuffer.UpdateFirstReadableOutOfOrder` | srtcore/buffer_rcv.cpp:947-1008 | whenever the search ends, exact count or not, it has found the first whole order-clear message, or none if there is none |
| `RcvBuffer.ReceiverBuffer.ScanNotInOrderMessageRight` | srtcore/buffer_rcv.cpp:1010-1039 | finds the last packet of the message without a gap, or reports none |
| `RcvBuffer.ReceiverBuffer.ScanNotInOrderMessageLeft` | srtcore/buffer_rcv.cpp:1041-1070 | finds the first packet of the message without a gap, or reports none |
| `RcvInvariant.StoredIsTaken` | srtcore/buffer_rcv.cpp:783-789 | a unit in a slot is a taken one and sits in no other slot, so it is freed once |
| `RcvInvariant.InsertStruct` | srtcore/buffer_rcv.cpp:151-207 | insert keeps: units exactly in Avail entries and below the furthest offset, each with its slot's sequence number, stored units exactly the taken ones, order-clear count exact, readable prefix sound |
| `RcvInvariant.DropUpToStruct` | srtcore/buffer_rcv.cpp:209-257 | dropUpTo keeps all of that |
| `RcvInvariant.DropMessageStruct` | srtcore/buffer_rcv.cpp:269-391 | dropMessage keeps all of that, also where it marks beyond the furthest offset |
| `RcvInvariant.ReadMessageStruct` | srtcore/buffer_rcv.cpp:393-498 | readMessage keeps all of that |
| `RcvSound.ReadBufferSound` | srtcore/buffer_rcv.cpp:528-602 | where the order flag is not tracked, readBuffer keeps the furthest offset in range, units only below it and exactly in Avail entries with their own sequence number, and the stored units exactly the taken ones, whatever was dropped before |
| `RcvSound.FileReadSoundIff` | srtcore/buffer_rcv.cpp:567-577 | in message mode it keeps that, with the order-clear count, if and only if no packet it releases has its order flag clear |
| `RcvSound.BufLoopFrees` | srtcore/buffer_rcv.cpp:537-583 | the packets a readBuffer releases are those at the start whose sizes the request covers |
| `RcvSound.FreedIff` | srtcore/buffer_rcv.cpp:537-583 | at least j packets are released if and only if j are readable and visited, the request wants bytes beyond the first j - 1, and it covers the first j, all in sums of payload lengths less the notch |
| `RcvMarks.MarksExact` | srtcore/buffer_rcv.cpp:286-370 | dropMessage marks exactly: in the range all but dropped entries and kept one-packet messages, and before it the stored packets of the message back to its first one, if the range shows neither |
| `RcvStreamDrops.ReadKeepsPrefix` | srtcore/buffer_rcv.cpp:528-602 | a readBuffer never breaks the readable prefix and then meets no null unit, also with a filler at the start |
| `RcvStreamDrops.ReadKeepsIff` | srtcore/buffer_rcv.cpp:528-602 | a readBuffer keeps the readable prefix and meets no null unit if the prefix was sound; a filler comes to stand at the start if and only if all that is readable is read and the next entry was dropped |
| `RcvStreamDrops.DropKeepsPrefixIff` | srtcore/buffer_rcv.cpp:372-380 | dropMessage keeps the readable prefix if and only if it does nothing, or no filler stands at the start, or that one was read and is in the range |
| `RcvStreamDrops.DropUpToNotchIff` | srtcore/buffer_rcv.cpp:209-257 | dropUpTo leaves the notch inside the packet at the start if and only if it does nothing, no packet is partly read, or the first packet left is longer than the notch |
| `RcvStreamDrops.DropMessageNotchIff` | srtcore/buffer_rcv.cpp:269-391 | the same for dropMessage, by what it marks |
| `RcvStreamDrops.BrokenRun` | srtcore/buffer_rcv.cpp:269-602 | a run of four operations in stream mode after which nothing is stored, packets count as readable, and a read returns -1 |
| `RcvStreamDrops.StrayNotch` | srtcore/core.cpp:9508-9512 | a run of four operations, the last a drop request for a partly read packet, after which the length left to copy is -2 |
| `RcvStreamRun.StepReadableIff` | srtcore/buffer_rcv.cpp:151-602 | in stream mode a step keeps the readable prefix stored and the notch inside the first packet if and only if it meets a condition on the state before it |
| `RcvStreamRun.InitReadable` | srtcore/buffer_rcv.cpp:117-137 | an empty buffer in stream mode has both |
| `RcvStreamRun.StreamRunIff` | srtcore/buffer_rcv.cpp:151-602 | over every run in stream mode, drops included, all states have both if and only if all steps meet that condition |
| `RcvStreamRun.StreamRunReadable` | srtcore/buffer_rcv.cpp:528-602 | in every state of such a run no readBuffer meets a null unit, so none returns -1 |
| `RcvFileRead.FileReadMiscounts` | srtcore/core.cpp:7723-7818 | an order-clear message read into a file stays counted though nothing is stored |
| `RcvFileRead.HangRun` | srtcore/buffer_rcv.cpp:947-1008 | a run of an order-clear message, a file read and one more packet after which a drop request does not return |
| `RcvSearch.HaltsIff` | srtcore/buffer_rcv.cpp:947-1008 | the search, written step by step over the ring, ends if and only if a guard skips it or an order-clear packet is stored, and then with what the model says |
| `RcvRun.StepSearches` | srtcore/buffer_rcv.cpp:209-498 | an operation that searches is what it did before and then the search |
| `RcvRun.ReturnsIff` | srtcore/buffer_rcv.cpp:209-498 | an operation returns if and only if it begins no search, a guard skips it, or an order-clear packet is stored where it begins; it does whenever the order-clear count is not too high |
| `RcvRun.RunReturns` | srtcore/buffer_rcv.cpp:209-498 | after any run in which readBuffer released no order-clear packet in message mode, every operation returns |
| `RcvRun.RunIntact` | srtcore/buffer_rcv.cpp:151-822 | in every state of every run of the six operations, on any packets and in every mode: furthest offset in range, units only below it and exactly in Avail entries, each with its slot's sequence number, stored units exactly the taken ones, each once; and the order-clear count too high by just the order-clear packets that readBuffer released in message mode |
| `RcvRun.RunSound` | srtcore/buffer_rcv.cpp:151-822 | so that count is exact if and only if there were none |
| `RcvRun.RunStruct` | srtcore/buffer_rcv.cpp:151-822 | in every run without readBuffer, in every mode, also everything before the first non-readable position is stored, in message mode it ends with PB_LAST, and no read or dropped entry stands at the start |
| `RcvRun.RunMsg` | srtcore/buffer_rcv.cpp:393-498 | over a well-formed stream every state of every run keeps a sound readable prefix and a recorded message that is whole, so a read always meets PB_LAST before a slot without a unit |
| `RcvMessages.ReadMeetsLast` | srtcore/buffer_rcv.cpp:412-487 | what a read takes ends with PB_LAST |
| `RcvDelivery.ReadIsMessage` | srtcore/buffer_rcv.cpp:393-498 | what a read takes is one whole message of the stream |
| `RcvDelivery.ReadConsumes` | srtcore/buffer_rcv.cpp:437-487 | a read marks exactly that message as consumed and nothing else |
| `RcvInOrder.EachMessageOnce` | srtcore/buffer_rcv.cpp:393-498 | any order flags, any arrivals, duplicates and reads: every delivery is one whole sent message unmodified, no message is delivered twice, and what was consumed is what was delivered |
| `RcvInOrder.AcceptedStays` | srtcore/buffer_rcv.cpp:151-207 | an accepted packet is stored or delivered ever after |
| `RcvInOrder.PrefixDelivered` | srtcore/buffer_rcv.cpp:393-498 | if all messages ask for order, deliveries lie end to end from the first message on, nothing is read out of order, and the non-read position is as far as it can be |
| `RcvInOrder.AllReadable` | srtcore/buffer_rcv.cpp:825-858 | once no packet is missing, the readable part reaches the end of the stream |
| `RcvInOrder.DrainDeliversAll` | srtcore/buffer_rcv.cpp:393-498 | reading on then delivers the stream to its end |
| `RcvRescan.MaximalIff` | srtcore/buffer_rcv.cpp:478-482 | after an in-order read the non-read position is as far as it can be if and only if no whole message stands behind ones read out of order or dropped |
| `RcvRescan.StuckIff` | srtcore/buffer_rcv.cpp:476-488 | after an in-order read a whole message at the start cannot be read if and only if one was left so and no whole order-clear message stands there or later, or order is not tracked |
| `RcvRescan.StuckHistory` | srtcore/buffer_rcv.cpp:478-482 | a history of five events with mixed order flags after which every packet is in and the last message cannot be read |
| `RcvLedger.RunLedger` | srtcore/buffer_rcv.cpp:209-602 | over any run of the six operations (readBuffer releasing no order-clear packet in message mode) the advance of the start plus the entries marked in the window equals packets read, dropped and discarded as reported, less the read entries in the ranges of drop requests |
| `RcvLedger.RecountedIs` | srtcore/buffer_rcv.cpp:294-333 | the entries that stop being read ones in a dropMessage are exactly the read ones in its range |
| `RcvLedger.CountedTwice` | srtcore/buffer_rcv.cpp:294-333 | a run of three operations that reports three packets for two sequence numbers |
| `RcvLedger.InOrderLedger` | srtcore/buffer_rcv.cpp:294-371 | without out-of-order reads the advance of the start equals the reported counts less the dropped entries still in the window |
| `RcvCounters.InsertExact` | srtcore/buffer_rcv.cpp:769-781 | insert changes byte and packet counters by just what it stores |
| `RcvCounters.ReadMessageExact` | srtcore/buffer_rcv.cpp:437-487 | readMessage changes both counters by just what it takes |
| `RcvCounters.CountersExact` | srtcore/buffer_rcv.cpp:769-781 | in every run of inserts and message reads, in any mode, the counters are the bytes and packets stored |
| `RcvStream.StreamPrefix` | srtcore/buffer_rcv.cpp:528-607 | stream mode, any arrivals and read sizes: the output is a prefix of the payloads in sequence order, and the byte counter is the stored bytes less the notch |
| `RcvStream.StreamComplete` | srtcore/buffer_rcv.cpp:528-607 | with no packet missing, a large enough read hands out the rest |
| `RcvStream.PktsExactIff` | srtcore/buffer_rcv.cpp:584-586 | after readBuffer the packet counter is exact if and only if the bytes asked for reach the end of the first readable packet and not that of the second |
| `RcvStream.PktsDrift` | srtcore/buffer_rcv.cpp:584-586 | one byte read from a packet of two: a packet is stored and the counter is 0 |
| `SndModel.PiecesWhole` | srtcore/buffer_snd.cpp:134-237 | the packets of one message are one message of a well-formed stream, numbered consecutively, and joined they are the message |
| `SndModel.PiecesJoin` | srtcore/buffer_snd.cpp:185-195 | cutting a message into packets and joining them gives it back |
| `SndModel.AddBufferBytes` | srtcore/buffer_snd.cpp:222-223 | the byte total grows by the message length |
| `SndRing.Chain` | srtcore/buffer_snd.cpp:88-105 | builds linked blocks over disjoint stretches of one array |
| `SndRing.Splice` | srtcore/buffer_snd.cpp:735-737 | two pointer writes make one circle of the old and the new blocks, storage still disjoint |
| `SndRing.StoreAt` | srtcore/buffer_snd.cpp:185-219 | writing the next free block adds its packet and changes no other |
| `SndBuffer.SenderBuffer.constructor` | srtcore/buffer_snd.cpp:66-109 | an empty queue over a circle of blocks |
| `SndBuffer.SenderBuffer.AddBuffer` | srtcore/buffer_snd.cpp:134-237 | grows the circle as needed and appends the message's packets to the queue; count, byte total, cursor, next message and sequence number as in the model |
| `SndBuffer.SenderBuffer.Increase` | srtcore/buffer_snd.cpp:692-754 | changes nothing of the queue, the cursor or the counters and keeps block storage disjoint |
| `SndBuffer.SenderBuffer.ReadData` | srtcore/buffer_snd.cpp:308-368 | first transmission: skips and counts expired packets, stamps key flags, moves the cursor, as in the model |
| `SndBuffer.SenderBuffer.ReadAgainData` | srtcore/buffer_snd.cpp:425-530 | retransmission: the packet, or the drop range of an expired message, or nothing, as in the model; the assertion at the end of the drop holds if and only if the block after the message carries the number after the range |
| `SndBuffer.StaleBlock` | srtcore/buffer_snd.cpp:500-506 | in a buffer of two blocks the second message's drop fails that assertion, as the free block still has the first one's number |
| `SndBuffer.SenderBuffer.Ack` | srtcore/buffer_snd.cpp:549-574 | removes a prefix of the queue, at most all of it; the cursor stays on its packet or moves to the new front |
| `SndBuffer.SenderBuffer.DropLate` | srtcore/buffer_snd.cpp:654-690 | removes the packets older than the time, with exact count, bytes and message number |
| `SndRun.SndRunInv` | srtcore/buffer_snd.cpp:134-690 | in every run of all operations the queue is the not yet removed rest of the stream of all messages submitted, and that stream is the messages end to end |
| `SndRun.EmitsStream` | srtcore/buffer_snd.cpp:308-530 | every packet handed to the network, new or again, is the stream's packet for its place |
| `SndRun.CursorForward` | srtcore/buffer_snd.cpp:308-368 | the cursor never goes back; a first transmission takes the next unexpired packet and stands just past it |
| `SndRun.NewOnce` | srtcore/buffer_snd.cpp:308-368 | over a run, first transmissions are in stream order and none happens twice |
| `SndRun.TtlDropRange` | srtcore/buffer_snd.cpp:469-506 | an expired retransmission reports the range from the packet to the last one of its message, removes nothing, leaves the cursor past the range if and only if the packet had been sent, and meets its closing assertion if a message follows |
| `SndRun.TtlDropRangeRun` | srtcore/buffer_snd.cpp:469-506 | so in every state of every run in which the buffer numbers the messages |
| `SndRun.RunStopsIff` | srtcore/buffer_snd.cpp:475-486 | the range ends at the message's end if and only if the next message has another number |
| `SndRun.OwnNumbersStep` | srtcore/buffer_snd.cpp:174-183 | the buffer's own numbering keeps neighbouring messages apart |
| `SndRun.OwnNumbersApart` | srtcore/buffer_snd.cpp:475-486 | with its own numbering, neighbouring queued messages differ in number, so a drop range never runs on into the next message |
| `EndToEnd.InOrderEndToEnd` | srtcore/buffer_rcv.cpp:393-498 | in-order messages, no drops at the receiver: in every run over a network that loses, reorders and repeats, the reader has got a prefix of the messages submitted so far, byte for byte |
| `EndToEnd.AllDelivered` | srtcore/buffer_rcv.cpp:825-858 | once every packet of the stream has been taken in, reading on delivers every message submitted |
| `EndToEnd.MixedEndToEnd` | srtcore/buffer_rcv.cpp:393-498 | with any order flags every delivery is one submitted message, untouched, and none comes twice |
| `EndToEnd.WireInv` | srtcore/buffer_snd.cpp:308-530 | what is on the wire is of the stream, and the stream only grows |
| `KeyWrap.UnwrapsWrapped` | haicrypt/cryspr.c:172-259 | unwrapping returns every key of legal length that was wrapped |
| `KeyWrap.OnlyWrappedUnwraps` | haicrypt/cryspr.c:214-259 | what unwraps is the wrapping of the result, so wrapping is a bijection onto what unwraps |
| `KeyWrap.WrapKey` | haicrypt/cryspr.c:172-212 | the six-round loop in place computes the wrapping of section 2.2.1 of RFC 3394, or refuses the length and writes nothing |
| `KeyWrap.UnwrapKey` | haicrypt/cryspr.c:214-259 | the loop computes the unwrapping of section 2.2.2 of RFC 3394, and zeroes the output if the check fails |
| `KeyWrap.GuardsIff` | haicrypt/cryspr.c:222-226 | the length tests let a length through if and only if it is a multiple of 8 and at least 16, or 0 |
| `KmMessage.WrappedLength` | haicrypt/hcrypt_ctx_rx.c:193-196 | a message that passed the checks brings a length that is at least 24 and passes |
| `KeyWrap.XorCounter` | haicrypt/cryspr.c:200-206 | the four conditional byte operations are the 64-bit exclusive or with the step counter |
| `KmMessage.AsmFields` | haicrypt/hcrypt_ctx_tx.c:275-331 | an assembled message passes the receiver's checks and is read back field by field |
| `KmMessage.RoundTrip` | haicrypt/hcrypt_ctx_rx.c:57-241 | one key or two, from either parity, every legal length, any receiver state: the even key goes to the even context and the odd key to the odd one, if and only if the KEK in use wraps the keys to the same bytes; it does whenever salt or key length are new to the checked context |
| `KmStale.RejectedKeeps` | haicrypt/hcrypt_ctx_rx.c:155-206 | a nonzero result leaves both contexts unchanged; the KEK is unchanged if and only if it was not derived anew or the context's own salt gives it back |
| `KmStale.StaleKek` | haicrypt/hcrypt_ctx_rx.c:157-188 | three messages made with the right password of which the third is refused: the salt it comes with is one the context remembers but not the one of the KEK in force |
| `CryptoSession.Transmitter.constructor` | haicrypt/hcrypt.c:110-179 | the even context keyed, active and waiting to be announced, the odd one ready |
| `CryptoSession.Transmitter.RefreshKey` | haicrypt/hcrypt_ctx_tx.c:172-219 | new key for the other context under the same salt, message with both keys |
| `CryptoSession.Transmitter.PreSwitchKey` | haicrypt/hcrypt_ctx_tx.c:226-242 | announces the new key, and no longer the old one if the message has both |
| `CryptoSession.Transmitter.SwitchKey` | haicrypt/hcrypt_ctx_tx.c:244-256 | the other context becomes the active one |
| `CryptoSession.Transmitter.PostSwitchKey` | haicrypt/hcrypt_ctx_tx.c:258-272 | the old key is decommissioned and the message reassembled |
| `CryptoSession.Transmitter.AssembleKM` | haicrypt/hcrypt_ctx_tx.c:275-331 | caches the context's message, or nothing on failure |
| `CryptoSession.Transmitter.Manage` | haicrypt/hcrypt_ctx_tx.c:333-394 | takes the one action the packet count calls for and marks what is due |
| `CryptoSession.Transmitter.Inject` | haicrypt/hcrypt_ctx_tx.c:396-419 | hands out what is due, even first, once |
| `CryptoSession.Transmitter.ManageKeys` | haicrypt/hcrypt_tx.c:55-80 | both together |
| `CryptoSession.Transmitter.Count` | haicrypt/hcrypt_tx.c:95-130 | counts a packet under the current key, modulo 2^32 |
| `TxSafety.RotationSafe` | haicrypt/hcrypt_ctx_tx.c:172-419 | through any number of rotations under the schedule the rotation invariant holds: one active context, the next key prepared in time, counts bounded, keys fresh |
| `TxSafety.ManageKeeps` | haicrypt/hcrypt_ctx_tx.c:333-394 | every call keeps it, and every ASSERT on its way holds |
| `TxSafety.ActiveIsAnnounced` | haicrypt/hcrypt_ctx_tx.c:226-272 | exactly the current context is active, and an announced message has its key |
| `TxSafety.SwitchesToAnnounced` | haicrypt/hcrypt_ctx_tx.c:244-256 | a switch goes to a key that is in a message already handed out and has sealed nothing |
| `TxSafety.OverwritesLate` | haicrypt/hcrypt_ctx_tx.c:172-219 | a slot's key is overwritten only after more than refresh - pre packets under the other one |
| `TxSafety.WrongSwitchIff` | haicrypt/hcrypt_ctx_tx.c:343-352 | a call switches to a key that was not prepared if and only if no packet came since the last switch |
| `TxSafety.SwitchesBack` | haicrypt/hcrypt_ctx_tx.c:343-352 | two calls in a row at the end of a period end on the worn-out key |
| `RxSession.Receiver.constructor` | haicrypt/hcrypt_ctx_rx.c:25-39 | two contexts without keys |
| `RxSession.Receiver.Parse` | haicrypt/hcrypt_ctx_rx.c:57-241 | the checks in their order, the choice of context, the copy it is tried on, the KEK and its rollback, and the overwriting of one or both contexts are those of the model; a refused message changes neither context object |
| `RxSession.Receiver.ProcessKM` | haicrypt/hcrypt_rx.c:88-169 | what is not Keying Material is refused, and a message equal to the one in force is not parsed again |
| `RxSession.Receiver.Data` | haicrypt/hcrypt_rx.c:26-62 | selects the context the flags name and its key, if it has one |
| `KeyAgreement.PeersRunInv` | haicrypt/hcrypt_rx.c:146-162 | over whole runs, messages processed before later packets: for each slot ever keyed the receiver has the transmitter's key, salt and KEK, also when it takes a message for a repeated one |
| `KeyAgreement.FlagsSelectKey` | haicrypt/hcrypt_rx.c:39-53 | the flags of any of the last refresh - pre + 1 packets select the key it was encrypted with, through any number of rotations |
| `KeyAgreement.FreshIsNew` | haicrypt/hcrypt_ctx_tx.c:275-331 | a message with a fresh key differs from all handed out before |
| `CtrStream.SetCtrIV` | haicrypt/hcrypt.h:132-136 | index and salt make the initial counter block |
| `CtrStream.BumpIsAddition` | haicrypt/cryspr.c:401-401 | the two-byte increment is the 128-bit one if and only if the two bytes do not run over |
| `CtrStream.AcceptedIsAddition` | haicrypt/cryspr.c:391-404 | for every accepted length each block is the initial one plus its place as 128-bit numbers |
| `CtrStream.BlocksDiffer` | haicrypt/hcrypt.h:132-136 | under one salt a counter block determines packet index and block number |
| `CtrStream.SetCtrStream` | haicrypt/cryspr.c:362-409 | fills the buffer with the counter blocks if and only if they fit, else leaves it alone |
| `SealedPackets.ReceiverOpens` | haicrypt/hcrypt_rx.c:39-53 | in every run the receiver decrypts those packets to the bytes that were encrypted |
| `SealedPackets.NoBlockTwice` | haicrypt/cryspr.c:362-409 | over a whole run no counter block repeats under one key |
| `SealedPackets.KeySpan` | haicrypt/hcrypt_ctx_tx.c:343-352 | all packets under one key lie within refresh + pre consecutive ones |
| `SocketIds.IdGenerator.Generate` | srtcore/api.cpp:459-560 | next value down in the first cycle; afterwards the first value that is not registered, failing if and only if all are |
| `SocketIds.IdGenerator.Search` | srtcore/api.cpp:498-540 | the search ends, with the first free value or with none if all are taken |
| `SocketIds.IdsAreNew` | srtcore/api.cpp:459-560 | over all sequences of calls an ID is in range and differs from every registered socket (or group), in the first cycle and after wrap-around |
| `SocketRegistry.RegistrySafe` | srtcore/api.cpp:2804-3137 | in every interleaving: a socket is in at most one of the two maps, one held by ID is in one of them, and each multiplexer exists exactly while undeleted sockets are on it and counts them |
| `SocketRegistry.OnlyForward` | srtcore/api.cpp:2160-3101 | a socket only goes from open to closed to deleted |
| `SocketRegistry.StageStep` | srtcore/api.cpp:2160-3101 | no step moves a socket back or past a stage |
| `SocketRegistry.DeleteKeeps` | srtcore/api.cpp:3104-3137 | deleting a socket destroys its multiplexer if and only if it was the last on it |
| `SocketRegistry.HeldUntilReleased` | srtcore/api.cpp:2743-2755 | over every run, a socket that was acquired stays registered until it is released, whatever the collector does |
| `SocketTable.Table.NewSocket` | srtcore/api.cpp:562-611 | the new socket can be found, nobody holds it, and no other socket changes its place; all counts stay exact |
| `SocketTable.Table.LocateAcquire` | srtcore/api.cpp:2743-2755 | a socket is caught if and only if it is open and not closing; it is then registered with its counter equal to its holders, and releasing it gives the state before; if not, nothing changes |
| `SocketTable.Table.ApiRelease` | srtcore/api.h:511-518 | one holder less; the socket is still registered and its counter is the number of holders left |
| `SocketTable.Table.CloseSocket` | srtcore/api.cpp:2211-2241 | afterwards nobody can acquire the socket; whoever holds it still does, it is still registered, and no other socket changes its place |
| `SocketTable.Table.CheckBroken` | srtcore/api.cpp:2834-2990 | moves the broken sockets, clears them from accept queues, and lists all closed ones that nobody holds and whose time has come; no hold is lost and all counts stay exact |
| `SocketTable.Table.RemoveNext` | srtcore/api.cpp:3000-3084 | takes a closed socket out only if nobody holds it, closing what is in its accept queue |
| `SocketTable.Table.Finish` | srtcore/api.cpp:3100-3137 | deletes it, and a multiplexer goes if and only if the socket was the last on it |
| `SocketTable.Table.CreateMux` | srtcore/api.cpp:3425-3495 | the socket is the only one on the new multiplexer, whose count is 1; the others keep their sockets |
| `SocketTable.Table.ShareMux` | srtcore/api.cpp:3590-3598 | the multiplexer has the socket besides those it had, and counts them; the others keep theirs |

## Left out

- TSBPD timing, drift tracing, moving averages and rate estimation: clocks and floating point.
- `addBufferFromFile`, logging and state formatting: input, output and text. A file that cannot be written ends `readBufferTo` early, as the model has it.
- AES, PBKDF2 and random numbers themselves, AES-GCM encryption, and every crypto library backend: only their interface is used.
- Preshared KEKs at the transmitter, `HaiCrypt_Clone`, `HaiCrypt_Tx_Process`, and `HaiCrypt_Rx_Process` with a place for decrypted data: SRT uses none of them for its own packets.
- Failures of PBKDF2, of the random generator and of setting a key, and running out of memory: they would add error returns only.
- Bonding groups, handshake, epoll and SRTLA paths in the registry; the rollback of a refused connection, which relies on the collector's delay.
- Address rules for sharing a multiplexer: which one is shared is up to the caller of `ShareMux`.
- Bit layouts of packet headers and of the message number word; message numbers that a caller brings beyond their 26 bits.
- Locks: each locked section is one step, and `generateSocketID` sees one set of registered sockets for the length of a call.
- Socket IDs after the generator has wrapped: `SocketRegistry` takes each new ID as one never used before, since the check after wrap-around looks at open sockets only.
- Host byte order: the KEKI field is compared as a little-endian host reads it; assembled messages have zeroes there.
- ReadBuffer: where the notch lies outside the packet, the length to copy is negative and nothing is said of the bytes handed out.
- DropUpTo: takes that the call returns, by the exact condition of `RcvRun.ReturnsIff`; a call that does not has no state after it.
- DropAll: likewise.
- DropMessage: likewise.
- ReadMessage: likewise.
- UpdateFirstReadableOutOfOrder: likewise, by `RcvSearch.HaltsIff`.
- UnwrapKey: leaves out length 0, where the code goes on to read outside the message; no caller passes it.
- ProcessKM: takes the caller's check that the message is longer than its header (srtcore/crypto.cpp:192), without which the code reads outside it.
- ReadAgainData: says when the closing assertion holds only for numbers in range, which is what callers number packets with.
- NoBlockTwice: takes packet indices as consecutive; sequence numbers that the sender skips for expired packets leave gaps.
- Chain: stands for two loops of the source, one of which gives the blocks their payload space after linking them.
- CheckBroken: takes a moved socket out of the open map at once, where the source does so at the end of the same locked pass.
