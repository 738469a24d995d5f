# Verified models of the client's coders, sharing, and device code

Four parts of the repository as Dafny programs with proofs. `dafny verify dfyconfig.toml` checks them all.

**The packet compressor** (ENet's adaptive order-2 range coder). Compressing and then decompressing gives
back the message; that is proved in layers.

- `RangeCoding.dfy`: a carryless 32-bit range coder over abstract shares. An interval is narrowed and bytes
  are emitted as they settle; the decoder's four-byte window always lies in the encoder's interval.
- `FrequencyTree.dfy`: binary trees of counts; searching by value and searching by code are inverse.
- `ContextModel.dfy`: a tree for each string of up to two bytes, escapes to shorter strings, rescaling, and
  the fresh start when slots run out.
- `PpmCoding.dfy`: compressor and decompressor as functions, and the round trip.
- `SymbolStore.dfy`: how the array of 4096 records represents the contexts. A map from strings to slots,
  which the program does not have, tells which record belongs to which string. Counters are narrowed to
  8 and 16 bits, and links are offsets, as in the source.
- `CoderObjects.dfy`, `PpmCoder.dfy`: the same in place, in the loops of the source, with wrapping
  32-bit arithmetic, and with the exclusive-or and the mask of the source (`Bits.dfy`).
  `Compress` and `Decompress` are proved equal to the functions.
- `PlainModel.dfy`: the model once more as plain counts per string of at most two bytes; every message has the same
  shares. `Examples.dfy`: one message, from its letters to the bytes of its stream.
- `Lockstep.dfy`: the decompressor updates contexts in another order and so numbers its slots differently;
  both arrays are nevertheless the same up to that numbering after every byte.

**Bandwidth sharing of a host**: `BandwidthSharing.dfy` has the shares as functions of the peers with their
conservation and fairness, `PlainSharing.dfy` what becomes of each peer in plain numbers, and `HostThrottle.dfy` the
loops over the array of peers.

**The display mode of a stream**: `DisplayModes.dfy`. The scan is order-sensitive: going to a larger resolution, it
can lose the way back to a better refresh rate. It is proved to find the optimum for every order of the list
if and only if no mode of the display is such a trap; `OrderMatters` is a display with one.

**The list of polled input devices**: `DeviceList.dfy` is the linked list in memory, `PollThreads.dfy` the
interleavings of the threads that share it.

`Words.dfy` has bytes, 32-bit words and their truncations.

The proofs brought out where the 32-bit words of the bandwidth throttle are too small.

- A rate of 4294968 bytes per second or more, times the least interval of 1000 ms, wraps around. The code then takes a
  peer, or the host itself, for slower than it is, and can hold a peer down to the smallest throttle
  (`FastPeerIsHeldDown`); `ScaledIs`, `ServedNeedlessly` and `ServedLimit` say exactly when.
- The product of throttle and data wraps around from 2^27 bytes on if there is bandwidth for all data, and can hide that a
  peer is sent more than it can receive (`WrapIsReached`); `PassedOver` says exactly when. A host with an outgoing limit
  never gets there while the data of its peers adds up to less than 2^32.
- The sum of the data wraps around at 2^32 on a host with an outgoing limit. Below that the outgoing loop makes at most two
  passes, the second changes nothing, nothing underflows, and no bandwidth is given out twice; beyond it all of that can
  fail (`SumMustFit`). A host without a limit forms no sum, and its loop makes at most two passes in any case.

The refresh rate of the display depends on the order of its list of modes only if there are traps.

## Model

The main results come first, then the operations and the steps in between, module by module.

| member | source | states |
|---|---|---|
| `PpmCoding.RoundTrip` | moonlight/src/main/jni/moonlight-core/moonlight-common-c/enet/compress.c:246-342 | decompressing the bytes that compressing returned gives exactly the message and stops there if there is room for it, and fails if there is not |
| `PlainModel.StreamInPlainTerms` | moonlight/src/main/jni/moonlight-core/moonlight-common-c/enet/compress.c:246-342 | the bytes for a message, all of them or none within the limit, are those of a model without trees, slots and links: 256 counts per string of at most two bytes, raised by 3 or 2, escapes raised by 5, halved past 249 or 251 or a total of 65280, starting afresh at 4094 slots |
| `Examples.FourLetters` | moonlight/src/main/jni/moonlight-core/moonlight-common-c/enet/compress.c:246-342 | four letters a become the bytes 98, 2, 25, 153 |
| `PpmCoding.StreamRoundTrip` | moonlight/src/main/jni/moonlight-core/moonlight-common-c/enet/compress.c:498-627 | decompressing the stream of any message, the empty one included, gives exactly the message if there is room for it, and fails if there is not |
| `PpmCoding.MessageRoundTrip` | moonlight/src/main/jni/moonlight-core/moonlight-common-c/enet/compress.c:520-624 | from any model and interval that both sides share, decoding restores the rest of the message after what is already out, or fails if and only if it does not fit |
| `PpmCoding.EndOfStream` | moonlight/src/main/jni/moonlight-core/moonlight-common-c/enet/compress.c:536-580 | behind the flushed low word every context that can escape does, and the root reads its escape, so the uncoded end is recognized in any model |
| `PpmCoding.CompressSucceeds` | moonlight/src/main/jni/moonlight-core/moonlight-common-c/enet/compress.c:114-146 | nine bytes per message byte and four more always suffice, and an empty result means exactly that the stream does not fit |
| `PpmCoding.StreamInjective` | moonlight/src/main/jni/moonlight-core/moonlight-common-c/enet/compress.c:246-342 | no two messages have the same stream |
| `PpmCoder.RangeCoder.Compress` | moonlight/src/main/jni/moonlight-core/moonlight-common-c/enet/compress.c:246-342 | returns the stream of the concatenated buffers, or 0 exactly if it does not fit or there is no input; the first buffer may be empty |
| `PpmCoder.RangeCoder.Decompress` | moonlight/src/main/jni/moonlight-core/moonlight-common-c/enet/compress.c:498-627 | returns what decoding the input yields, 0 when a code has no symbol or the output is full, for any input up to a code beyond the root's scale |
| `Lockstep.SameModels` | moonlight/src/main/jni/moonlight-core/moonlight-common-c/enet/compress.c:529-623 | after every byte of every message the decompressor has the compressor's model |
| `Lockstep.SameContextsSameArrays` | moonlight/src/main/jni/moonlight-core/moonlight-common-c/enet/compress.c:598-615 | two arrays that represent the same contexts agree in all tree shapes, counters and suffix links, up to the numbering of the slots |
| `Lockstep.SameCoders` | moonlight/src/main/jni/moonlight-core/moonlight-common-c/enet/compress.c:286-336 | two coders with the same model use the same number of slots and the same order, predict corresponding records, and hold arrays that are the same up to the numbering |
| `Lockstep.RecordsFit` | moonlight/src/main/jni/moonlight-core/moonlight-common-c/enet/compress.c:313-314 | between any two bytes of any run every record in use has counts within 8 bits and sums of at most 65280, and its suffix, child and tree links stay among the slots in use |
| `Lockstep.HistoryIsRecent` | moonlight/src/main/jni/moonlight-core/moonlight-common-c/enet/compress.c:331-336 | the predicted context is always that of the last two bytes since the last fresh start, or of all of them if there are fewer |
| `Lockstep.LastTwoBytes` | moonlight/src/main/jni/moonlight-core/moonlight-common-c/enet/compress.c:331-336 | after a message the next byte is coded after its last two bytes, or as many as follow the last fresh start, which comes at 4094 slots |
| `RangeCoding.EncodeInside` | moonlight/src/main/jni/moonlight-core/moonlight-common-c/enet/compress.c:121-146 | interval containment: at every point of every run the next four bytes, zeros past the end, are a word of the current interval |
| `RangeCoding.DecodeFollows` | moonlight/src/main/jni/moonlight-core/moonlight-common-c/enet/compress.c:352-371 | on a produced stream the code read lies in the share that was coded, and decoding that share leaves the reader at the rest of the stream |
| `FrequencyTree.FindIsInverse` | moonlight/src/main/jni/moonlight-core/moonlight-common-c/enet/compress.c:373-413 | the search by code finds the one byte whose cumulative interval has the code, values not yet in the root included |
| `FrequencyTree.UnderIsCumulative` | moonlight/src/main/jni/moonlight-core/moonlight-common-c/enet/compress.c:176-192 | the value the search adds up is the true cumulative frequency, the sum of all counts of smaller values |
| `ContextModel.LearnedSound` | moonlight/src/main/jni/moonlight-core/moonlight-common-c/enet/compress.c:311-314 | learning a byte, with or without rescaling, keeps counts within 8 bits, totals at most 65280, and the total equal to escapes, counts and minimum |
| `ContextModel.LearnedCounts` | moonlight/src/main/jni/moonlight-core/moonlight-common-c/enet/compress.c:305-314 | exactly when a count would come near 255 or the total is above 65280, all counts and escapes are halved, rounding up, after the byte was raised by 3 or 2 and the escapes of a new one by 5; otherwise only these change |
| `ContextModel.NextValid` | moonlight/src/main/jni/moonlight-core/moonlight-common-c/enet/compress.c:331-336 | after every byte the model is valid again, and the slots needed never exceed 4096 |
| `PlainSharing.OutgoingInPlainTerms` | moonlight/src/main/jni/moonlight-core/moonlight-common-c/enet/host.c:336-420 | where the sums fit, each peer after the outgoing half in exact numbers: with the largest throttle for all data, a waiting connection for which it is too much gets the largest limit for what it states; every other, also one that states no rate, gets the largest limit for what is left of bandwidth and data; nothing else of any peer changes but the counted data and the cap |
| `PlainSharing.IncomingInPlainTerms` | moonlight/src/main/jni/moonlight-core/moonlight-common-c/enet/host.c:433-475 | a connection below the common limit, or without a rate, is sent its own rate and marked, every other is sent the common limit, which is the largest for what the former leave of the bandwidth; nothing else of any peer changes |
| `PlainSharing.UnlimitedIncoming` | moonlight/src/main/jni/moonlight-core/moonlight-common-c/enet/host.c:430-475 | a host without an incoming limit sends every connection the limit 0, and nothing else of any peer changes |
| `BandwidthSharing.TwoPasses` | moonlight/src/main/jni/moonlight-core/moonlight-common-c/enet/host.c:352-395 | where the sums fit, the outgoing loop makes at most two passes and has the result of its first |
| `BandwidthSharing.OutgoingConserves` | moonlight/src/main/jni/moonlight-core/moonlight-common-c/enet/host.c:336-403 | where the data adds up to less than 2^32, nothing underflows, and the served peers' computed bandwidths and the throttled data of all others together never exceed the host's, which is computed as no more than it is |
| `BandwidthSharing.OutgoingPerPeer` | moonlight/src/main/jni/moonlight-core/moonlight-common-c/enet/host.c:352-420 | where the sums fit, each peer's outcome: a peer that would be sent more than its rate is computed to allow gets the largest limit for that, which is also the largest for its real capacity exactly if both give the same quotient; all others get one common limit, within their real capacity exactly unless there is bandwidth for all data, the product of the data wraps around, and the data is too much; all throttles are capped, inactive peers are unchanged |
| `BandwidthSharing.PassedOver` | moonlight/src/main/jni/moonlight-core/moonlight-common-c/enet/host.c:372-374 | a peer is passed over although it would be sent more than it can really receive, if and only if there is bandwidth for all data, its data is 2^27 or more and, modulo 2^27, no more than its computed bandwidth, and it is more than it can receive |
| `BandwidthSharing.ServedNeedlessly` | moonlight/src/main/jni/moonlight-core/moonlight-common-c/enet/host.c:372-374 | a peer is served although it could receive what it would be sent, if and only if its rate times the time reaches 2^32, and the computed bandwidth falls short of its throttled data while the real one does not |
| `BandwidthSharing.SumMustFit` | moonlight/src/main/jni/moonlight-core/moonlight-common-c/enet/host.c:336-395 | a host limited to 1000000 bytes per second whose data adds up to 2^32 + 2000000: the first pass spends 1500000, the bandwidth wraps around, the throttle rises from 16 to 32, and the second pass serves another peer |
| `BandwidthSharing.SettleFair` | moonlight/src/main/jni/moonlight-core/moonlight-common-c/enet/host.c:433-456 | at the end exactly the peers below the final limit are marked, and the others share what the marked ones leave |
| `BandwidthSharing.IncomingFair` | moonlight/src/main/jni/moonlight-core/moonlight-common-c/enet/host.c:422-476 | each active peer is sent the smaller of its own rate and one common limit, and the limits of peers with a stated rate add up to at most the incoming bandwidth; a peer that states none is sent 0, no limit, and is not in the sum |
| `HostThrottle.Host.BandwidthThrottle` | moonlight/src/main/jni/moonlight-core/moonlight-common-c/enet/host.c:314-477 | once per interval, and for any data, the peers become what outgoing and incoming sharing make of them; otherwise nothing changes |
| `DisplayModes.ChoiceBelow4K` | moonlight/src/main/java/com/limelight/Game.java:801-884 | an ordinary stream of at most 60 frames per second: the choice has the current resolution and, of the good refresh rates there, the lowest for the pacing modes that ask for a reduction and the highest otherwise, or the highest of all if none is good |
| `DisplayModes.ChoiceInGeneral` | moonlight/src/main/java/com/limelight/Game.java:801-884 | any stream: what the choice may be, and that no listed mode that is allowed in its place has a better refresh rate, with rates, widths and preferences spelled out |
| `DisplayModes.OptimalUnlessTrapped` | moonlight/src/main/java/com/limelight/Game.java:801-884 | the scan finds the optimum for every order of the list (the same modes, each as often) if and only if no mode of the display is a trap: one it may go to, although there is a better one, and from which it may go to none that is better |
| `DisplayModes.ScanImproves` | moonlight/src/main/java/com/limelight/Game.java:836-873 | between any two points of the scan no good match is lost, no equal one where reducing is welcome, no fit, and up to 60 frames per second no column and no row |
| `DisplayModes.OptimalIsUnique` | moonlight/src/main/java/com/limelight/Game.java:809-884 | the best refresh rate does not depend on the order of the list, and it is good exactly if some candidate's is |
| `DisplayModes.ChooseMode` | moonlight/src/main/java/com/limelight/Game.java:801-884 | the loop with its two flags picks what the scan picks: the last mode that could replace the best so far and was no worse |
| `PollThreads.EveryRunIsSafe` | moonlight/src/main/jni/evdev_reader/evdev_reader.c:143-255 | after any interleaving of starts, grabs and thread deaths the list has exactly the entries started and not unlinked, each live and once |
| `PollThreads.EntriesAreForTheirDevices` | moonlight/src/main/jni/evdev_reader/evdev_reader.c:201-255 | in every run the list is what was enqueued and not unlinked, newest first, and each live entry has the name of the device that was checked last before it was made |
| `PollThreads.NewDeviceCanStart` | moonlight/src/main/jni/evdev_reader/evdev_reader.c:201-255 | whenever the main thread is idle and the lock free, a device that is not listed can be started, and is then in front under its name |
| `PollThreads.UnlinkFindsItsEntry` | moonlight/src/main/jni/evdev_reader/evdev_reader.c:147-166 | a thread that holds the lock has its entry in the list and removes only that one |
| `DeviceList.PolledDevices.StartPoll` | moonlight/src/main/jni/evdev_reader/evdev_reader.c:201-255 | queues a device in front unless its name is polled already or the system refuses it; the list stays well linked and without duplicates |
| `DeviceList.PolledDevices.Unlink` | moonlight/src/main/jni/evdev_reader/evdev_reader.c:143-167 | takes the entry of an ending thread out of the list wherever it is, changing at most the one link that led to it |
| `RangeCoding.Narrow` | moonlight/src/main/jni/moonlight-core/moonlight-common-c/enet/compress.c:123-125 | a proper share of an interval is an interval inside it that does not wrap around |
| `RangeCoding.Truncate` | moonlight/src/main/jni/moonlight-core/moonlight-common-c/enet/compress.c:128-132 | truncation keeps low, never widens and never empties the range, and leaves only words with one leading byte |
| `RangeCoding.Shift` | moonlight/src/main/jni/moonlight-core/moonlight-common-c/enet/compress.c:133-135 | dropping the settled byte keeps the interval within 32 bits; the wrapped end is reached only by a truncated range |
| `RangeCoding.Normalize` | moonlight/src/main/jni/moonlight-core/moonlight-common-c/enet/compress.c:126-136 | the rounds end, with a range of at least 65536 in an interval that straddles leading bytes |
| `RangeCoding.NormalizeReaderFollows` | moonlight/src/main/jni/moonlight-core/moonlight-common-c/enet/compress.c:356-370 | the decoder takes in exactly the bytes that the encoder gave out, and reaches the same interval |
| `RangeCoding.EndFollows` | moonlight/src/main/jni/moonlight-core/moonlight-common-c/enet/compress.c:139-146 | at the implied end of the stream any code reads as 0, and decoding a share that starts at 0 keeps it so |
| `RangeCoding.NormalizeBound` | moonlight/src/main/jni/moonlight-core/moonlight-common-c/enet/compress.c:126-136 | one share costs at most three bytes |
| `RangeCoding.FlushIsShortest` | moonlight/src/main/jni/moonlight-core/moonlight-common-c/enet/compress.c:139-146 | the flushed bytes end with one that is not zero, and there are none exactly if the low word is zero |
| `Bits.XorDiffers` | moonlight/src/main/jni/moonlight-core/moonlight-common-c/enet/compress.c:128 | an exclusive-or reaches 2^k exactly if the operands differ above their last k bits |
| `Bits.AndIsRemainder` | moonlight/src/main/jni/moonlight-core/moonlight-common-c/enet/compress.c:131 | masking the last k bits is the remainder by 2^k |
| `CoderObjects.TopTest` | moonlight/src/main/jni/moonlight-core/moonlight-common-c/enet/compress.c:128 | the exclusive-or test on low and the wrapped end tells exactly whether the interval reaches past its leading byte |
| `CoderObjects.MaskTest` | moonlight/src/main/jni/moonlight-core/moonlight-common-c/enet/compress.c:131 | masking the negated low word with 16 bits leaves the truncated range |
| `CoderObjects.NarrowTest` | moonlight/src/main/jni/moonlight-core/moonlight-common-c/enet/compress.c:123-125 | no product or sum of narrowing wraps around |
| `CoderObjects.RangeEncoder.EncodeShare` | moonlight/src/main/jni/moonlight-core/moonlight-common-c/enet/compress.c:121-137 | codes one share in place; fails exactly if its bytes do not fit |
| `CoderObjects.RangeEncoder.EmitSettled` | moonlight/src/main/jni/moonlight-core/moonlight-common-c/enet/compress.c:126-136 | the emitting rounds in 32-bit arithmetic produce the bytes and the interval of normalizing |
| `CoderObjects.RangeEncoder.FlushLow` | moonlight/src/main/jni/moonlight-core/moonlight-common-c/enet/compress.c:139-146 | writes the low word without trailing zeros; fails exactly if it does not fit |
| `CoderObjects.RangeEncoder.Emit` | moonlight/src/main/jni/moonlight-core/moonlight-common-c/enet/compress.c:114-119 | one byte, or failure at the output limit |
| `CoderObjects.RangeDecoder.constructor` | moonlight/src/main/jni/moonlight-core/moonlight-common-c/enet/compress.c:344-350 | the code word starts as the first four bytes, zeros for missing ones |
| `CoderObjects.RangeDecoder.Read` | moonlight/src/main/jni/moonlight-core/moonlight-common-c/enet/compress.c:352 | divides the range and returns the 16-bit code |
| `CoderObjects.RangeDecoder.DecodeShare` | moonlight/src/main/jni/moonlight-core/moonlight-common-c/enet/compress.c:354-371 | takes the share out of the interval and as many bytes in as the encoder gave out |
| `CoderObjects.RangeDecoder.TakeSettled` | moonlight/src/main/jni/moonlight-core/moonlight-common-c/enet/compress.c:356-370 | the rounds of the decoder in 32-bit arithmetic |
| `CoderObjects.RoundInPlainTerms` | moonlight/src/main/jni/moonlight-core/moonlight-common-c/enet/compress.c:126-136 | the rounds of normalizing with the exclusive-or, the mask and the shifts in 32-bit words as the code has them, from any live interval |
| `FrequencyTree.HasIffCounted` | moonlight/src/main/jni/moonlight-core/moonlight-common-c/enet/compress.c:159-199 | in an ordered tree exactly the values that occur have a positive count, and none exceeds the bound |
| `FrequencyTree.InsertCounts` | moonlight/src/main/jni/moonlight-core/moonlight-common-c/enet/compress.c:171-196 | a visit raises one count and no other, keeps the order, and makes the value occur |
| `FrequencyTree.HalveCounts` | moonlight/src/main/jni/moonlight-core/moonlight-common-c/enet/compress.c:90-105 | rescaling halves every count, rounding up, and keeps order and symbols; the new sum is bounded by half the old and the number of symbols |
| `ContextModel.SharesProper` | moonlight/src/main/jni/moonlight-core/moonlight-common-c/enet/compress.c:286-326 | all shares of a byte are proper, and there are between one and three |
| `ContextModel.LearnCommutes` | moonlight/src/main/jni/moonlight-core/moonlight-common-c/enet/compress.c:598-614 | learning in one context does not affect another, so the order of updates does not matter |
| `PpmCoding.SymbolRoundTrip` | moonlight/src/main/jni/moonlight-core/moonlight-common-c/enet/compress.c:529-596 | decoding the shares of one byte through the escapes gives that byte, the context that coded it, the encoder's interval, and a reader at what was coded next |
| `PpmCoding.ByteRoundTrip` | moonlight/src/main/jni/moonlight-core/moonlight-common-c/enet/compress.c:286-337 | one message byte is found, never mistaken for the end, and both sides reach the stream of the remaining bytes with the same valid model |
| `PpmCoding.LocateIsInverse` | moonlight/src/main/jni/moonlight-core/moonlight-common-c/enet/compress.c:373-438 | every code of a share leads back to the byte the share was made for |
| `PpmCoding.NoSymbolFails` | moonlight/src/main/jni/moonlight-core/moonlight-common-c/enet/compress.c:415-416 | input whose code is at or beyond the total of the predicted context, if that has escapes, makes the decompressor fail |
| `PlainModel.MessageInPlainTerms` | moonlight/src/main/jni/moonlight-core/moonlight-common-c/enet/compress.c:286-337 | from any point of a run the shares of the rest of the message are those of the plain model |
| `PlainModel.SameAfterByte` | moonlight/src/main/jni/moonlight-core/moonlight-common-c/enet/compress.c:301-314 | a context's tree, escapes and total learn a byte as the 256 counts do |
| `PlainModel.SameShares` | moonlight/src/main/jni/moonlight-core/moonlight-common-c/enet/compress.c:303 | the share of a byte is the escapes and counts of all smaller bytes, its own count, and the total, with one unit more per byte without any context |
| `SymbolStore.InsertInPlace` | moonlight/src/main/jni/moonlight-core/moonlight-common-c/enet/compress.c:159-199 | the walk over the records, with its narrowed counters and offset links, builds the tree that inserting builds |
| `SymbolStore.InsertChanges` | moonlight/src/main/jni/moonlight-core/moonlight-common-c/enet/compress.c:159-199 | the walk touches only records of the tree, and no context parts or suffix links |
| `SymbolStore.HalveInPlace` | moonlight/src/main/jni/moonlight-core/moonlight-common-c/enet/compress.c:90-105 | the recursive rescaling of the records builds the halved tree |
| `SymbolStore.ContextReplaced` | moonlight/src/main/jni/moonlight-core/moonlight-common-c/enet/compress.c:159-199 | changing one context and its tree leaves the records of all other contexts representing them |
| `SymbolStore.InsertRepresents` | moonlight/src/main/jni/moonlight-core/moonlight-common-c/enet/compress.c:159-199 | after a visit the array represents the contexts with the byte counted, in one more slot exactly if it is new |
| `SymbolStore.HalveRepresents` | moonlight/src/main/jni/moonlight-core/moonlight-common-c/enet/compress.c:107-112 | after rescaling the array represents the contexts with this one rescaled |
| `SymbolStore.VisitRepresents` | moonlight/src/main/jni/moonlight-core/moonlight-common-c/enet/compress.c:293-295 | a visit together with the link of the waiting record keeps contexts and suffix links |
| `PpmCoder.RangeCoder.EncodeByte` | moonlight/src/main/jni/moonlight-core/moonlight-common-c/enet/compress.c:286-329 | codes a byte in the predicted context or its suffixes, emits exactly its shares, and moves the coder to the model after it |
| `PpmCoder.RangeCoder.EncodeStep` | moonlight/src/main/jni/moonlight-core/moonlight-common-c/enet/compress.c:286-316 | one context of that walk: either it codes the byte and the walk ends, or it escapes and the rest is left to its suffix |
| `PpmCoder.RangeCoder.EncodeIn` | moonlight/src/main/jni/moonlight-core/moonlight-common-c/enet/compress.c:293-315 | the visit, the share and the adaptation in one context |
| `PpmCoder.RangeCoder.NextInput` | moonlight/src/main/jni/moonlight-core/moonlight-common-c/enet/compress.c:331-336 | the coder is valid again: the predicted slot is that of the last two bytes, or everything is reset when slots run out |
| `PpmCoder.RangeCoder.WalkByValue` | moonlight/src/main/jni/moonlight-core/moonlight-common-c/enet/compress.c:168-198 | from the root of a tree, finds or makes the record of a value in place, and returns its cumulative frequency and count before the visit |
| `PpmCoder.RangeCoder.WalkByCode` | moonlight/src/main/jni/moonlight-core/moonlight-common-c/enet/compress.c:383-412 | the search by code makes the change that the search by value makes for the byte of that code, and fails exactly without one |
| `PpmCoder.RangeCoder.ContextDecode` | moonlight/src/main/jni/moonlight-core/moonlight-common-c/enet/compress.c:373-438 | a code leads in place to the byte of its share, with the same under and count that the encoder used, and fails exactly if there is none |
| `PpmCoder.RangeCoder.RescaleTree` | moonlight/src/main/jni/moonlight-core/moonlight-common-c/enet/compress.c:90-105 | halves the tree in place and returns its new sum |
| `PpmCoder.RangeCoder.Rescale` | moonlight/src/main/jni/moonlight-core/moonlight-common-c/enet/compress.c:107-112 | the array then holds the rescaled context and all others unchanged |
| `PpmCoder.RangeCoder.Adapt` | moonlight/src/main/jni/moonlight-core/moonlight-common-c/enet/compress.c:305-314 | the array then holds what the context learns from the byte |
| `PpmCoder.RangeCoder.Visit` | moonlight/src/main/jni/moonlight-core/moonlight-common-c/enet/compress.c:293-295 | searches, counts and links, keeping the representation up to the pending link |
| `PpmCoder.RangeCoder.FindSymbol` | moonlight/src/main/jni/moonlight-core/moonlight-common-c/enet/compress.c:529-596 | walks down the suffixes as decoding one symbol does, with the same outcome |
| `PpmCoder.RangeCoder.DecodeIn` | moonlight/src/main/jni/moonlight-core/moonlight-common-c/enet/compress.c:536-567 | one context of that walk: escape, end, byte, or no symbol |
| `PpmCoder.RangeCoder.PatchContexts` | moonlight/src/main/jni/moonlight-core/moonlight-common-c/enet/compress.c:598-615 | the contexts above the one that had the byte learn it afterwards, and the outcome is the encoder's |
| `PpmCoder.RangeCoder.PatchIn` | moonlight/src/main/jni/moonlight-core/moonlight-common-c/enet/compress.c:603-613 | one patched context, on the way to what the encoder would have made of it |
| `PpmCoder.RangeCoder.DecodeByte` | moonlight/src/main/jni/moonlight-core/moonlight-common-c/enet/compress.c:529-615 | decodes a byte, and all contexts have learned it |
| `PpmCoder.RangeCoder.Reset` | moonlight/src/main/jni/moonlight-core/moonlight-common-c/enet/compress.c:148-157 | an array with the root alone represents the fresh model |
| `PpmCoder.FlattenCons` | moonlight/src/main/jni/moonlight-core/moonlight-common-c/enet/compress.c:275-284 | the message is the first buffer followed by those after it |
| `Lockstep.OrderTwo` | moonlight/src/main/jni/moonlight-core/moonlight-common-c/enet/compress.c:286-315 | after two bytes in whose context a byte was counted, its only share is that of this context, which alone learns it, by 2 unless a limit is reached |
| `BandwidthSharing.ServedShare` | moonlight/src/main/jni/moonlight-core/moonlight-common-c/enet/host.c:371-378 | a served peer takes less than its part of the throttled data, also when the product wraps around |
| `BandwidthSharing.ServeAllFits` | moonlight/src/main/jni/moonlight-core/moonlight-common-c/enet/host.c:361-394 | what a pass spends and the data it leaves are together no more than the unserved data, and neither are 32 times the spending and the throttled rest more than the throttled data; for any data |
| `BandwidthSharing.ServedLimit` | moonlight/src/main/jni/moonlight-core/moonlight-common-c/enet/host.c:375-379 | the limit of a served peer is at least 1, at most the throttle it was served under, the largest for its computed bandwidth, and the largest for its real capacity exactly if both give the same quotient |
| `BandwidthSharing.ThrottleNeverRises` | moonlight/src/main/jni/moonlight-core/moonlight-common-c/enet/host.c:356-359 | taking the same amount from bandwidth and data never raises the throttle |
| `BandwidthSharing.ServedSettles` | moonlight/src/main/jni/moonlight-core/moonlight-common-c/enet/host.c:352-395 | after one pass no peer exceeds its computed bandwidth under the same throttle, nor under a lower one unless a product wraps around |
| `BandwidthSharing.SecondPassIdle` | moonlight/src/main/jni/moonlight-core/moonlight-common-c/enet/host.c:352-395 | where the sums fit, a second pass serves nobody and changes nothing |
| `BandwidthSharing.RoundFits` | moonlight/src/main/jni/moonlight-core/moonlight-common-c/enet/host.c:433-456 | an incoming round never underflows and leaves each unmarked peer at least the limit, so the limit never falls |
| `BandwidthSharing.MarkCounts` | moonlight/src/main/jni/moonlight-core/moonlight-common-c/enet/host.c:438-455 | a round marks as many peers as leave the unmarked ones, and their demand is at most the limit each |
| `BandwidthSharing.LimitedHostNeverWraps` | moonlight/src/main/jni/moonlight-core/moonlight-common-c/enet/host.c:336-359 | on a host with an outgoing limit whose sum of data fits, no peer's data wraps around while there is bandwidth for all data |
| `BandwidthSharing.WrapIsReached` | moonlight/src/main/jni/moonlight-core/moonlight-common-c/enet/host.c:352-420 | on a host without an outgoing limit a peer with 2^27 bytes of data and a capacity of 1000 ends with the full throttle |
| `BandwidthSharing.ScaledIs` | moonlight/src/main/jni/moonlight-core/moonlight-common-c/enet/host.c:339-372 | the 32-bit product of rate and time is never taken for more than it is, and for less exactly if it reaches 2^32; it always leaves room for the throttle scale |
| `BandwidthSharing.BudgetCovers` | moonlight/src/main/jni/moonlight-core/moonlight-common-c/enet/host.c:336-350 | the sums of a host fit if it has no outgoing limit or if the data of its peers adds up to less than 2^32 |
| `BandwidthSharing.ExactRate` | moonlight/src/main/jni/moonlight-core/moonlight-common-c/enet/host.c:372-377 | for a peer whose rate times the time stays below 2^32 the computed bandwidth and the real capacity give the same limit |
| `BandwidthSharing.FastPeerIsHeldDown` | moonlight/src/main/jni/moonlight-core/moonlight-common-c/enet/host.c:372-380 | on a host without an outgoing limit a peer with 1000 bytes of data and a capacity of 4294968 ends with the smallest throttle |
| `PlainSharing.CommonLimitIs` | moonlight/src/main/jni/moonlight-core/moonlight-common-c/enet/host.c:397-403 | the common limit is the largest of at most 32 that scales the data left to the bandwidth left, and 32 on a host without a limit |
| `PlainSharing.LargestThrottleIsUnique` | moonlight/src/main/jni/moonlight-core/moonlight-common-c/enet/host.c:356-359 | there is only one such limit |
| `HostThrottle.Host.ShareOutgoing` | moonlight/src/main/jni/moonlight-core/moonlight-common-c/enet/host.c:336-420 | the outgoing half in place: for any data the peers become what the passes and the common throttle make of them |
| `HostThrottle.Host.ServeLoop` | moonlight/src/main/jni/moonlight-core/moonlight-common-c/enet/host.c:352-395 | the loop in place, with unsigned sums, does what the passes do for any data, and makes at most two of them where the sums fit |
| `HostThrottle.Host.ServePeers` | moonlight/src/main/jni/moonlight-core/moonlight-common-c/enet/host.c:361-394 | one pass in place, with the running totals in unsigned 32-bit subtraction |
| `HostThrottle.Host.ServePeer` | moonlight/src/main/jni/moonlight-core/moonlight-common-c/enet/host.c:367-390 | one peer of a pass: throttled to its computed bandwidth if and only if the common throttle, in 32 bits, would send it more |
| `HostThrottle.Host.ThrottlePeers` | moonlight/src/main/jni/moonlight-core/moonlight-common-c/enet/host.c:404-419 | the common throttle for all peers that were not served |
| `HostThrottle.Host.DataTotal` | moonlight/src/main/jni/moonlight-core/moonlight-common-c/enet/host.c:341-349 | the data of the active peers, added up modulo 2^32 |
| `HostThrottle.Host.LimitIncoming` | moonlight/src/main/jni/moonlight-core/moonlight-common-c/enet/host.c:422-476 | the incoming half in place: the rounds end at the settled limit, and every active peer is told its own |
| `HostThrottle.Host.MarkPeers` | moonlight/src/main/jni/moonlight-core/moonlight-common-c/enet/host.c:438-455 | one round in place: the peers below the limit are marked, bandwidth and remaining peers go down by exactly their demand and number |
| `HostThrottle.Host.InformPeers` | moonlight/src/main/jni/moonlight-core/moonlight-common-c/enet/host.c:458-475 | each active peer is queued one limit command |
| `DisplayModes.SettledIsOptimal` | moonlight/src/main/java/com/limelight/Game.java:819-838 | for a pinned resolution, or a high frame rate on a display that fits it, or when the resolution was kept, the mode is optimal among all candidates |
| `DisplayModes.OrderMatters` | moonlight/src/main/java/com/limelight/Game.java:836-845 | for a native stream the same two modes in one order trap the scan at a larger resolution, and in the other lead to the optimum |
| `DisplayModes.TrapIsNotOptimal` | moonlight/src/main/java/com/limelight/Game.java:801-884 | where the scan can end is a trap exactly if it is not optimal |
| `DisplayModes.TrapIsTaken` | moonlight/src/main/java/com/limelight/Game.java:809-884 | with a trap moved to the front of the list the scan ends at a mode that is not optimal |
| `DisplayModes.NoTraps` | moonlight/src/main/java/com/limelight/Game.java:827-838 | a pinned resolution has no traps, nor has a high frame rate on a display that fits the stream |
| `DisplayModes.ScanSettles` | moonlight/src/main/java/com/limelight/Game.java:801-884 | the scan ends with a mode that no other eligible mode could replace for the better, and that improves on the current one |
| `DisplayModes.OneModeAtATime` | moonlight/src/main/java/com/limelight/Game.java:809-883 | what one more mode in the list changes, with rates, widths and preferences spelled out: of equal modes the last is taken |
| `DisplayModes.NoLargerAtTheSameRate` | moonlight/src/main/java/com/limelight/Game.java:834-883 | up to 60 frames per second no eligible mode that is larger than the choice has its refresh rate |
| `DeviceList.WithoutIs` | moonlight/src/main/jni/evdev_reader/evdev_reader.c:149-163 | exactly one entry goes |
| `PollThreads.RunIsSafe` | moonlight/src/main/jni/evdev_reader/evdev_reader.c:143-255 | from any safe state, every run keeps list, lock and names safe, and the list grows by the enqueued entries and shrinks by the unlinked ones |
| `PollThreads.StepIsSafe` | moonlight/src/main/jni/evdev_reader/evdev_reader.c:143-255 | no step of any thread breaks list, lock or names |
| `PollThreads.FreedIsNotListed` | moonlight/src/main/jni/evdev_reader/evdev_reader.c:165-172 | an entry is freed only after it has left the list, and all listed ones are live |
| `PollThreads.ListedDeviceIsRefused` | moonlight/src/main/jni/evdev_reader/evdev_reader.c:204-213 | a device that is listed is refused without any change, and cannot be started again |
| `PollThreads.ThreadCanEnd` | moonlight/src/main/jni/evdev_reader/evdev_reader.c:140-175 | whenever the lock is free, any polling thread can end, and takes its own entry, name and no other out |
| `PollThreads.LockIsGivenBack` | moonlight/src/main/jni/evdev_reader/evdev_reader.c:165-256 | whoever holds the lock can give it back by the next step |

## Left out

- Decompress: when the code read in the root is not below the root's total, the source goes on with a value that
  does not fit into a byte. The model stops there and sets `derailed`. No output of `Compress` leads there;
  for all other input the behaviour of the source up to that point is covered, including failure in a subcontext.
- Compress: requires each input buffer after the first to be non-empty. After moving to the next buffer, the source reads
  its first byte without asking whether there is one. The length limit of the input counts only when it is zero, as in
  the source.
- The coder's locals (`low`, `range`, `code`, `nextSymbol`, `predicted`, `order`) are fields of objects here, and the
  macros are methods. A null coder, creation, destruction and the allocator callbacks are not modelled.
- Context exclusion is switched off in the source by line 40 of compress.c and is not modelled.
- BandwidthThrottle: takes the time as a parameter and requires the number of active peers to be right and no peer to be
  marked with the current time already. All sums, products, subtractions and the time difference wrap around as in the source.
- OutgoingConserves: requires the sums to fit (`Covers`), that is, data that adds up to less than 2^32; `SumMustFit` shows
  an input beyond it.
- SecondPassIdle: requires the same of a host with an outgoing limit (`Balanced`), and nothing of one without.
- TwoPasses: requires what SecondPassIdle does.
- OutgoingPerPeer: requires what SecondPassIdle does.
- OutgoingInPlainTerms: requires what SecondPassIdle does.
- InformPeers: the command queue of a peer is the list of its limit commands; acknowledgement, channel, byte order and
  sending are not part of this model.
- ChooseMode: refresh rates are exact reals and rounding is half up. Whether the stream has a native resolution is a
  parameter. Mode identifiers, how the chosen mode is applied to the window, and the platform-version branches around
  the scan are not modelled.
- StartPoll: whether a device opens, is suitable, gets memory and a thread are parameters. Polling, reading,
  grabbing and the socket are not modelled, nor are device names too long for their buffer.
- PollThreads: the lock is a step that waits; a thread may end at any step. What a thread does while polling, and the
  unlocked flag for grabbing, are not modelled.
- The rest of the repository (user interface, preferences, databases, network services, controller input) is not
  modelled: most of it is calls into the platform.
