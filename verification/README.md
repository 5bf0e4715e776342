# mulTTY: framing, program switching and the program table

This project models two parts of mulTTY and proves properties of them.

**The wire.** A handle escapes data into a buffer of PIPE_BUF bytes and flushes it as a frame
`SOH name SO payload SO`; program switches `SOH id [US description] DC4` and bare `DC4` go in
between; one function writes to file descriptor 1, entirely or not, and closes it after a short
write. The receiver is a byte-wise parser built from the documentation. The main results are
`Session.Multiplex` (what any calls on any handles send comes out in the channel of program and
stream, whatever fails), `Switching.RunLands` and `ProgRuns.PlayAll` (when sender and receiver
agree on the current program), `Session.IssueAll` (what fd 1 can hold), and the conditions below.

**The program table.** The intrusive hash table of `lib/uthash.h`, instantiated for the one element
type the repository hashes, with doubly linked application order and bucket chains, expansion,
in-place merge sort, in-order insertion and Bloom filter, all on mutable objects. The main results
are `HashRuns.FromScratch` (any run refines a map and a sequence, and its expansions are computed), `UtHash.ProgTable.ExpandBuckets`,
`ListSort.SortLinked` and `HashRuns.SortedEitherWay`.

## How it is laid out

- `Bytes`, `Sequences`, `Bits`: bytes and style masks as bit-vectors, repetition-free sequences, shift and mask arithmetic.
- `EscapeCodec`, `Wire`, `Receiver`, `Splitting`, `Identity`, `Switching`, `Demux`: the wire on values: escaping, messages and fd 1, the receiver, the reading of test/verify.py, identities, the current/previous machine, runs of flushes.
- `Programs`, `ProgRuns`, `Streams`, `Reading`, `Accounting`, `Names`, `Session`: program set and handle as classes with the methods of the source, and whole runs of them.
- `Chains`, `AppList`, `Expansion`, `Shapes`, `StableSort`, `ListSort`, `Bloom`, `UtHash`, `HashRuns`: the hash table; `Shapes` is its bookkeeping as a function of hash values.

Methods follow the branches of the C functions and are proved against functions on values; the
lemmas are about those functions. `hide` statements in bodies only limit what the solver unfolds.

## What does not hold, and when it does

- `mtyp_switch` changes current and previous whatever becomes of its message, and `mtyflush` ignores its result. A lost message, for certain one longer than PIPE_BUF, leaves the receiver on another program: `Switching.LostSwitch`, `Demux.LostSwitchMisdelivers`, `Demux.AnyRunLands`.
- A silent `mtyp_drop` of the current program leaves the receiver with another previous program once the next switch is by name; a nameless switch before that passes goes to the wrong program. `Switching.RunLands` says exactly which runs are harmed, `Switching.DropOfCurrentMisleads` gives one.
- A description without US in the identity is understood only in the cases of `Identity.SwitchUnderstood`.
- `mtyopen` does not refuse names with control codes; their prefix selects another stream: `Names.PrefixSelects`.
- Text with SO or SI sent by `mtyputstrbuf` leaves its stream: `Names.TextDelivered`, `Names.TextRunDelivered`.
- A caller that retries the rest after a failed `mtywrite` repeats the bytes still in the buffer, always if nothing was pending before: `Accounting.RetryRepeats`, `Accounting.WriteAndRetry`.
- `mtyp_drop` does not ignore an absent program, as documented: one that is in no list empties the whole set: `Programs.ProgSet.Drop`, `UtHash.ProgTable.Delete`.

## Where code and documentation differ

The model follows the code.

- `mtywrite` is documented to return -1 on error (lib/write.c:17); its test for that (lib/write.c:26-28) cannot succeed inside the loop, so it returns the count so far.
- `mtyp_switch` is documented to return -1 on error (lib/progswitch.c:23); it always returns 0.
- `mtyp_drop` is documented to ignore an absent program (lib/progdrop.c:12-13); the macro it calls does not look, and takes one without neighbours for the only one in the table (lib/uthash.h:464-469).
- The header gives ASCII as the style that checks descriptions (include/arpa2/multty.h:252-253); the code uses MIXED.
- On stream names the receiver compares whole names, as test/verify.py does; on programs it compares what doc/ASCII.MD:105-111 says.

## Model

| member | source | states |
|---|---|---|
| EscapeCodec.BinaryWish | lib/escape.c:30-41 | the BINARY style escapes exactly the bytes below 0x20, DEL and 0xff |
| EscapeCodec.MixedWish | include/arpa2/multty.h:120-124 | the MIXED mask, as the set of bytes it escapes: it leaves SO and SI alone |
| EscapeCodec.AsciiWish | include/arpa2/multty.h:120-123 | the ASCII mask, as the set of bytes it escapes |
| EscapeCodec.EscapedForm | lib/escape.c:99-104 | an escaped byte is 0x10 and the byte with 0x40 flipped, and back; other bytes stand for themselves |
| EscapeCodec.WishIsBinary | lib/escape.c:30-41 | BINARY is the strictest style; an escaped form needs no escaping itself and XOR 0x40 undoes it |
| EscapeCodec.EscapeConcat | lib/escape.c:86-108 | where the writer cuts its data does not change the escaped bytes |
| EscapeCodec.UnescapeConcat | lib/unescape.c:72-89 | decoding can stop anywhere, also after DLE, and resume with the carried flag |
| EscapeCodec.RoundTrip | lib/unescape.c:72-89 | for a style that escapes DLE, unescaping undoes escaping, for all byte strings |
| EscapeCodec.RoundTripExactly | lib/escape.c:30-41 | the round trip holds for all strings if and only if the style escapes DLE |
| EscapeCodec.EscapedBinaryIsClean | lib/escape.c:92-104 | BINARY data on the wire holds no control code but DLE |
| EscapeCodec.EscapedMixedIsClean | lib/escape.c:92-104 | MIXED data on the wire holds DLE, and SO or SI only if the text did, and no other mulTTY code |
| Identity.MtyEscapefree | lib/escape.c:61-68 | true exactly when no byte needs escaping |
| Streams.Multty.MtyOpen | lib/open.c:24-44 | null exactly for a name over the bound or a mode without w; otherwise the buffer holds 0x01, the whole escaped name and 0x0e as the prefix, nothing is pending, and the handle invariant holds |
| Names.PrefixSelects | lib/open.c:39-42 | the prefix of mtyopen selects the stream of that name if and only if the name has no control code |
| Streams.Multty.MtyEscape | lib/escape.c:86-108 | appends the escaped form of the first done bytes, stops only when the next byte does not fit, takes nothing exactly when the first does not, keeps the prefix and room for SO |
| Streams.Multty.SendFrame | lib/flush.c:54-69 | attempts prefix, pending payload and closing SO as one frame of less than PIPE_BUF bytes; on success these bytes are on fd 1, on failure prefix and payload stay as they were |
| Streams.Multty.ClaimLine | lib/flush.c:47-53 | switches to the program of the handle before the frame, whatever becomes of the switch; when it is sent, its bytes with id and description are on fd 1 |
| Streams.Multty.MtyFlush | lib/flush.c:42-70 | switch if needed, then the frame with the pending payload of this stream: what was attempted, what went out to the byte, the new current program and what is pending afterwards, for every outcome; if fd 1 closes, what was cut is the start of one of these messages |
| Streams.Multty.EscapeAndFlush | lib/write.c:23-36 | the escape and flush loop of write.c and puts.c: terminates from any handle state; accounts for every byte; every frame but the last is full; no escape pair is cut by a frame; a failed flush keeps back data exactly unless it was the first and the buffer had no room |
| Streams.Multty.MtyWrite | lib/write.c:19-38 | the count is exactly the number of leading bytes in frames that succeeded; the bytes of a failed frame stay pending, and from a clean handle there are some |
| Streams.Multty.MtyPutstrbuf | lib/puts.c:26-38 | the whole account of MtyWrite for text under MIXED; true exactly when no flush failed |
| Streams.WholeMore | lib/escape.c:97-103 | escaping onto a payload that cuts no escape pair leaves one that cuts none |
| Streams.Multty.MtyUnescape | lib/unescape.c:72-89 | decodes the bytes from the old to the new read offset, carries the DLE flag, stops at the end of buffer or destination |
| Reading.ReadAll | lib/unescape.c:72-89 | for any refill boundaries and any destination sizes the data is that of the whole wire decoded at once |
| Reading.ReadBack | lib/unescape.c:51-71 | what was escaped under a style with DLE is read back unchanged through any buffer and read sizes |
| Names.TextDelivered | lib/puts.c:26-38 | a frame of MIXED text, on a named stream or stdout, delivers exactly the text to its stream if and only if the text has no SO and no SI |
| Names.TextRunDelivered | lib/puts.c:26-38 | the same for a text that takes any number of frames, with the switches to its program |
| Names.PutText | lib/puts.c:26-38 | the same for calls of mtyputstrbuf that succeed, read off the bytes on fd 1 |
| Accounting.FrameCount | lib/write.c:23-36 | frames f of a successful write from a clean handle: (f-1)(PIPE_BUF-3-shift) <= 2 count, and the exact number of frame bytes |
| Accounting.FramesAreAll | lib/flush.c:42-70 | a handle without a program sends those frame bytes and nothing else |
| Accounting.Conserved | lib/write.c:23-36 | for every outcome, what went out and what is pending are what was pending before and the escaped bytes taken in |
| Accounting.RetryRepeats | lib/write.c:25-37 | a caller that writes data[count..] after a failure sends the kept bytes twice; both calls carry the data intact if and only if the buffer had no room for the first byte and the first flush failed |
| Accounting.WriteAndRetry | lib/write.c:19-38 | the two calls themselves: intact exactly then, and never from a handle with nothing pending |
| Accounting.ResumeContinues | lib/write.c:25-37 | a caller that goes on after the bytes taken in has both calls carry the data exactly, whatever the outcome of the second |
| Wire.Stdout.MtyvOut | lib/vout.c:56-72 | over PIPE_BUF nothing is written; otherwise the result of writev decides: true exactly when it took everything, unchanged on an error, and a short write keeps that many bytes and closes fd 1 |
| Wire.AttemptKeepsLine | lib/vout.c:56-72 | every outcome of a send keeps fd 1 at whole messages, in order, and at most the start of one more, after which nothing succeeds |
| Wire.LineTold | lib/vout.c:61-71 | what was added to an open line: the attempted messages that succeeded, in full, and at most the start of message k, which closed it, with no success afterwards |
| Accounting.LineHolds | lib/vout.c:61-71 | over every run of sends with any errors and short writes: the messages reported as sent, in order, then at most the start of one more, which closes the line |
| Accounting.ClosedForever | lib/vout.c:64-68 | once closed, nothing is written and nothing succeeds |
| Session.IssueAll | lib/flush.c:42-70 | any calls of mtywrite, mtyputstrbuf and mtyflush on any handles with any outcomes: the bytes on fd 1 are the whole messages that succeeded of exactly those that these flushes attempt, then at most the start of one that closed it; and the report of each call balances |
| Session.HandleBalances | lib/write.c:19-38 | over such a run, what a handle sent and what is pending in it are what was pending before and what its calls took in |
| Programs.MtypRaw | lib/prograw.c:15-32 | the documented contract: the pieces are sent as one message or not at all |
| Wire.WireCodes | include/arpa2/multty.h:41-71 | the codes of a frame and of both switches on the wire |
| Receiver.ParseFrame | doc/ASCII.MD:291-307 | a frame delivers its payload to its stream of the current program and leaves the receiver at rest |
| Receiver.ParseSwitchTo | doc/ASCII.MD:234-249 | a named DC4 makes the named program current and the current one previous |
| Receiver.ParseSwitchBack | doc/ASCII.MD:234-238 | a bare DC4 swaps current and previous |
| Receiver.ParseName | lib/vin.c:174-196 | a name runs on until a control code, after US until one that MIXED escapes |
| Receiver.NameEnds | lib/vin.c:174-196 | what each control code does that ends a name |
| Splitting.LogIsTold | test/verify.py:26-39 | cutting fd 1 at 0x01 and 0x0e gives back the name and the payload of every frame, in order, and the text of stdout between them |
| Splitting.RunSplits | test/verify.py:26-39 | without program mixing, for any run of flushes with any frames lost, this gives each stream exactly what was sent to it |
| Identity.MtypMkid | lib/progmkid.c:16-27 | accepts exactly ids of at most 32 bytes without control codes; sets each of the 33 bytes, or leaves them alone |
| Identity.MkidInjective | lib/progmkid.c:16-27 | different ids or flags give different identities |
| Identity.TrimProgId | lib/progswitch.c:47-49 | the identity goes on the wire in full and without padding, also when it fills all 33 bytes |
| Identity.KeyOfDescribed | doc/ASCII.MD:105-111 | the receiver finds the identity in the name, whatever description follows US |
| Identity.KeyOfPlain | doc/ASCII.MD:105-108 | without US the first 32 characters identify the program |
| Identity.KeyOfAnyName | doc/ASCII.MD:105-111 | the key of any name is a start of it of at most 33 characters, 33 only with US at the end, and nothing after these matters |
| Identity.SwitchUnderstood | lib/progswitch.c:43-51 | a described switch takes every receiver to that program if and only if the id has US, or the description is empty, or a control-free description follows a 32-byte id |
| Identity.NameTellsAll | lib/progswitch.c:45-53 | the name in a switch tells id, flag and description apart if and only if there is US, or no description, or the id has 32 characters |
| Identity.SwitchInjective | lib/progswitch.c:45-53 | announceable switches with the same message agree in id, flag and description |
| Programs.ProgSet.Switch | lib/progswitch.c:25-61 | the three outcomes of mtyp_switch: new current and previous program, the message attempted, and when it is sent the bytes on fd 1, with the description of the program |
| Programs.ProgSet.Drop | lib/progdrop.c:18-30 | a program of the set leaves the table, and current or previous if it was that; nothing is sent. One that is in no list takes all programs with it: just it goes if and only if it was in the set, and the set stays valid if and only if that or nothing was current or previous |
| Programs.DropUnentered | lib/progdrop.c:18-30 | dropping a program that was made and never entered empties the set, and leaves current and previous pointing at programs that are no longer in it |
| Programs.ProgSet.Find | lib/progfind.c:16-20 | the program with that identity, or null if there is none |
| Programs.ProgSet.Enter | lib/uthash.h:407-426 | a program with an absent identity enters by HASH_ADD, at the end of the order; current and previous stay |
| Programs.ProgSet.SameById | lib/progswitch.c:29-35 | comparing programs of a set by address is comparing them by identity |
| Switching.History | lib/progswitch.c:29-60 | over any switches from the start, current is the program switched to last and previous the one before, unless that was the same |
| Switching.HistorySends | lib/progswitch.c:28-51 | after any such switches the next one is silent to the last program, a bare DC4 to the one before, and named to any other |
| Switching.ToAndFro | lib/progswitch.c:35-41 | going to and fro between two programs sends two names and from then on only bare DC4 |
| Switching.ThereAndBack | lib/progswitch.c:35-41 | switching to the previous program and back is nameless both ways and leaves current and previous as they were |
| Switching.DropForgets | lib/progdrop.c:20-25 | a drop takes that program out of current and previous, and no other |
| Switching.SwitchSyncs | lib/progswitch.c:25-61 | after a switch whose message arrives the receiver has the sender's current program, and its previous one if set |
| Switching.LostSwitch | lib/progswitch.c:45-60 | if the message is lost they are in step only if there was none to send: the result of mtyp_raw is ignored |
| Switching.DropSyncs | lib/progdrop.c:18-30 | a drop keeps them in step if and only if it is not the current program that goes |
| Switching.RunSyncs | doc/ASCII.MD:234-249 | over all runs of switches whose messages arrive and of drops of non-current programs the receiver has the sender's current program after every step |
| Switching.RunLands | lib/progswitch.c:25-61 | over all runs with any program dropped and any message lost: every switch takes the receiver to its program if and only if no nameless switch is made while stale, and no message is lost unless the receiver was on the program anyway |
| Switching.OrderlyNeverStrays | lib/progdrop.c:18-30 | no such switch occurs when nothing is lost and no current program is dropped |
| Switching.DropOfCurrentMisleads | lib/progdrop.c:20-22 | a run in which a dropped current program later makes a nameless switch reach the dropped program, and one with the same drop in which it does not |
| ProgRuns.PlayAll | lib/progswitch.c:25-61 | the calls themselves on a program set and fd 1, programs entering, switched to and dropped: what was sent, no message over PIPE_BUF among it, and both results above about the receiver of the bytes on fd 1 |
| Demux.RunDelivers | lib/flush.c:42-70 | for any run of flushes by any handles of which no switch is lost, the receiver gets every byte of every frame that was sent once, in order, tagged with program and stream, and nothing else |
| Demux.Demultiplexed | test/verify.py:26-39 | each program and stream receives, after what it had, exactly what was sent to it, in order |
| Demux.FlushedByHandle | lib/flush.c:50-53 | when all handles have a program, or none has, the channel depends on the handle alone |
| Demux.LostSwitchMisdelivers | lib/flush.c:50-53 | a frame whose switch was lost reaches the right program if and only if no switch was needed |
| Demux.AnyRunLands | lib/flush.c:47-53 | with any switches lost too: exactly the frames sent arrive, in order, each on the program that the receiver is on |
| Demux.LandsRight | lib/flush.c:47-53 | a frame lands where it belongs if and only if the receiver is then on the program that is current for the sender |
| Session.SentIsReceived | lib/write.c:19-38 | each channel gets exactly the frames of the calls on it, and nothing of a frame that failed |
| Session.Multiplex | lib/write.c:19-38 | any calls on any handles with any outcomes: exactly the frames that were sent arrive; if no switch was lost each channel gets its own; with what is pending that decodes to what the calls took in, and if no call failed to all their data |
| Bits.MaskIsMod | lib/uthash.h:441-444 | masking with a power of two minus one is the remainder |
| Bits.ShiftIsDiv | lib/uthash.h:919-924 | shifting is dividing by a power of two |
| Chains.ToBktIsMod | lib/uthash.h:441-444 | with a power of two of buckets, a hash value belongs in the bucket of its remainder |
| Chains.LinkFirst | lib/uthash.h:863-869 | a program put in front of a bucket chain leaves it linked both ways |
| Chains.DelInBkt | lib/uthash.h:882-895 | the chain without the program, linked both ways, head and count adjusted |
| Chains.PlacedPush | lib/uthash.h:860-869 | pushing a program into the bucket of its hash keeps every program in exactly its own bucket |
| Chains.ChainsTotal | lib/uthash.h:552-555 | the chains together hold as many programs as the list |
| Shapes.ChainLength | lib/uthash.h:860-869 | a chain is as long as the number of programs whose hash value belongs in its bucket |
| Shapes.BucketsShare | lib/uthash.h:550-555 | every hash value belongs in exactly one bucket |
| Expansion.IdealIsCeiling | lib/uthash.h:939-941 | ideal_chain_maxlen is the ceiling of num_items over the new number of buckets |
| Expansion.ExpandMultBounds | lib/uthash.h:949-953 | expand_mult is 0 exactly up to the ideal count, beyond it between ceil(count/ideal)-1 and ceil(count/ideal) |
| Expansion.ExpandMultExactly | lib/uthash.h:949-953 | the exact expand_mult: 0 up to the ideal count, one less than ceil(count/ideal) right beyond it and when the ideal is 1, and otherwise ceil(count/ideal) |
| Expansion.ExcessPush | lib/uthash.h:949-950 | nonideal_items grows by one exactly when a bucket is already at the ideal length |
| Expansion.MoveToBucket | lib/uthash.h:946-960 | one program moves to its new bucket; count, multiplier and the number of non-ideal items follow |
| UtHash.ProgTable.MoveChain | lib/uthash.h:944-962 | one old chain is emptied into the new buckets, no program lost or doubled |
| UtHash.ProgTable.ExpandBuckets | lib/uthash.h:926-976 | every program is in bucket hashv % 2n and in no other, chains linked, counts right, ideal length, excess, multipliers and the noexpand decision exact; the list untouched |
| UtHash.ProgTable.AddToBkt | lib/uthash.h:860-879 | push, and expansion exactly when the bucket held one program less than (expand_mult + 1) * 10 or more and noexpand is unset |
| UtHash.ProgTable.MakeTable | lib/uthash.h:223-245 | 32 empty buckets, all counters zero, no filter bit set |
| UtHash.ProgTable.AddToTable | lib/uthash.h:341-358 | the bucket and filter part of an add: expansion at the threshold and not otherwise, every program in the bucket of its remainder, one more filter bit |
| UtHash.ProgTable.AddKeyptr | lib/uthash.h:407-426 | the program is appended to the order; 32 buckets at first, then twice as many exactly when its bucket was one short of the threshold; every program in the bucket of its remainder; the invariant is kept |
| AppList.FindSlot | lib/uthash.h:297-304 | finds the place before the first program that compares greater |
| UtHash.ProgTable.AddKeyptrInorder | lib/uthash.h:361-392 | the program is inserted before the first one that compares greater; buckets as for HASH_ADD; the invariant is kept |
| AppList.Unlink | lib/uthash.h:472-482 | the list without the program, linked both ways, head and tail adjusted |
| UtHash.ProgTable.Delete | lib/uthash.h:461-488 | a program of the table leaves list and bucket, the others keep their order; multipliers, flags and filter bits stay; the last one takes the table with it, and so does one that is in no list: just it goes if and only if it was in the table |
| UtHash.ProgTable.Find | lib/uthash.h:164-184 | the program with that key, null if there is none; the same with and without the Bloom filter |
| UtHash.ProgTable.Replace | lib/uthash.h:265-273 | a program with the same key goes and is returned, the new one is appended; with distinct keys it is the one with that key; expansion as for the two steps |
| UtHash.ProgTable.ReplaceInorder | lib/uthash.h:255-263 | the same with in-order insertion |
| UtHash.ProgTable.Sort | lib/uthash.h:983-1065 | the order becomes the stable sort of the old one; chains, counters and filter untouched; max(1, ceil(log2 n)) passes of at most n comparisons, and exactly how many |
| UtHash.ProgTable.Fsck | lib/uthash.h:526-573 | on any table whose forward links can be walked, the debug check finds nothing wrong if and only if all back links, bucket counts and both totals are right; on a table that satisfies the invariant it finds nothing wrong |
| ListSort.MergeRuns | lib/uthash.h:1009-1051 | two runs are merged in place, ties from the first run first, with exactly one comparison for each element taken while both last |
| ListSort.Pass | lib/uthash.h:993-1058 | a pass merges neighbouring runs and relinks the whole list; it reports one merge or none exactly when it was the last |
| ListSort.SortLinked | lib/uthash.h:983-1065 | the list, relinked in place both ways, is the stable insertion sort of itself, within the bound on passes and comparisons |
| StableSort.SortSorts | lib/uthash.h:1020-1038 | the result is sorted |
| StableSort.SortIsPermutation | lib/uthash.h:1039-1049 | the result is a permutation |
| StableSort.SortIsStable | lib/uthash.h:1023-1026 | elements that compare equal keep their order |
| StableSort.StableSortUnique | lib/uthash.h:983-1065 | sortedness and stability determine the result |
| StableSort.MergeOfSorts | lib/uthash.h:1010-1050 | merging two sorted runs gives the stable sort of both together |
| StableSort.PassDoublesRuns | lib/uthash.h:1052-1061 | a pass turns sorted runs of k into sorted runs of 2k |
| StableSort.PassComparesBound | lib/uthash.h:1020-1038 | a pass compares at most once for each element |
| Bloom.FilterSize | lib/uthash.h:186-213 | the filter has room for 2^n bits and less than a byte more; a hash value selects the bit of its remainder |
| Bloom.BitMaskIsShift | lib/uthash.h:206-207 | the mask of bit k is 1 << k |
| Bloom.BitSet | lib/uthash.h:206-210 | setting a bit sets that bit and no other |
| UtHash.ProgTable.BloomAdd | lib/uthash.h:209-213 | no false negative: every program of the table tests positive afterwards; and no bit is set but those recorded and the new one |
| HashRuns.MarksAreAdded | lib/uthash.h:189-213 | over every run, each bit set in the filter is that of a program that was added |
| HashRuns.TenthAddExpands | lib/uthash.h:870-873 | programs that all belong in one bucket: 32 buckets up to the ninth add, 64 at the tenth |
| HashRuns.StepRefinesMap | lib/uthash.h:164-184 | each operation on the order is the operation on a map, with the same answer |
| HashRuns.RunRefinesMap | lib/uthash.h:265-273 | over every run the answers are those of a map |
| HashRuns.InorderIsAddThenSort | lib/uthash.h:361-392 | for distinct keys, adding all and sorting and inserting all in order are legal runs that give one order |
| HashRuns.SortedEitherWay | lib/uthash.h:361-392 | a table filled in order and one filled by HASH_ADD and sorted by the merge sort list the same programs along their links: sorted, the same ones, ties in the order they came |
| HashRuns.PerformAll | lib/uthash.h:407-488 | over every run of operations, each with a comparison of its own, the table has the order and gives the answers of a plain sequence; buckets, counters and filter bits are a function of the hash values |
| HashRuns.FromScratch | lib/uthash.h:164-184 | from the empty table, for any hash function, with or without the Bloom filter: the answers of a map, the order of a sequence, and the number of buckets, every expansion, multiplier, flag and filter bit as computed from the hash values |

## Left out

- `lib/vin.c`, `lib/dispint.c`, `lib/dispstrm.c`: parsing and dispatch of input are unfinished; the receiver of the model follows the documentation and the naming rule that lib/vin.c:174-196 intends.
- `mtyinputsize`, `mtyp_have`, `mtyp_describe`: incomplete as written. Programs enter the set by HASH_ADD.
- `Programs.MtypRaw`: models the documented contract of lib/prograw.c:15-32; its loop as written does not advance.
- `mtyoutstream`, `mtyclose` and the stdin and stderr handles: they add only starting states or a call of mtyflush. Stdout is the handle with an empty prefix.
- `Streams.Multty.EscapeAndFlush`: one loop serves mtywrite and mtyputstrbuf, which spell out the same one; the return value -1 that mtywrite cannot reach is not modelled.
- `UtHash.ProgTable.AddKeyptr`: the table is freed by dropping the reference to it; allocation always succeeds.
- `UtHash.ProgTable.ExpandBuckets`: counts and bucket numbers are unbounded naturals, so the wrap of num_buckets after 2^32 buckets is not modelled; allocation would fail first.
- `UtHash.ProgTable.Find`: the back pointer from an element to its table and the handle offset are not modelled; every element belongs to one table, and element and handle are one object.
- `UtHash.ProgTable.Replace`: a table that holds the key more than once and also the new program itself is left out; HASH_FIND may then return another one, and the program would be linked twice.
- `Programs.ProgSet.Drop`: dropping from an empty set, where the macro follows a null pointer, and dropping a program that is linked into another set are left out.
- `Reading.Refill`: where the next bytes come from is a parameter; the dispatch that refills a handle is unfinished in the source.
- The build without program mixing: a handle without a program behaves as in that build.
- HASH_SELECT, HASH_CLEAR, recovery from failed allocation, key emission, and the concrete hash functions: the hash is an arbitrary function of the key.
- Program hierarchy (DC1, DC3), removal (DC2) and EM at the receiver: no modelled code sends them.
- Threads: each flush, with its switch and its frame, is one step after the other; a single write is atomic as POSIX promises up to PIPE_BUF.
- `src/`: process plumbing and colours.
