# Verified models of VSSIM

VSSIM is an SSD simulator: a firmware model behind a patched QEMU. This project models, in Dafny, the parts of it whose
correctness is hardest to see from the code, and proves what they are for.

**The firmware I/O buffer** (`FIRMWARE/firm_buffer_manager.c`, driven by `FIRMWARE/ssd.c`). A write-back cache that
reorders: reads jump ahead of queued writes, a read that overlaps a queued write flushes a prefix of the queue, hidden
writes are dropped, adjacent and overlapping writes are merged, and all write data lives in a ring of frames with a
status each and three pointers chasing one another. The model has two layers.

- `BufferSpec` says on values what every operation does to the queues, the frame spans and the flash.
  `BufferTheorems` proves what this means to the host over every sequence of requests, `BufferTiming` when answers are
  handed over, when and how far the queue is flushed and what a write does to it; `BufferDefect` and `BufferRuns` say
  exactly which reads of which runs can be answered wrongly.
- `WriteRing`, `ReadRing`, `EventQueue` and `IoBuffer` are the program itself: classes with the pointers, counters,
  status array and linked queue entries, whose methods have the loops of the source, down to the page loops of the FTL
  (`PageMap`). Each method is proved to do what `BufferSpec` says. `BufferSession` drives the class through any sequence
  of requests, from power-on to shutdown, and states the theorems about whole runs of it.

**The library parts of QEMU that VSSIM carries**, each with a different kind of property:

- AES (`AesTables`, `AesCipher`, `AesKeys`, `AesBlocks`, `AesStandard`, `AesCbc`, `AesCbcMode`, `AesCbcCalls`): the T-table rounds are the rounds of
  FIPS 197, both key schedules are the ones of the standard, decryption undoes encryption, and CBC round-trips for
  every length. The tables are defined from an arbitrary S-box `S` and a table `Si` with `Si[S[x]] == x`, by the rule
  at `QEMU/aes.c:46-58`.
- DES (`DesBits`, `DesPermutation`, `DesRounds`, `DesKeys`, `DesLong`, `DesWordBits`, `DesCipherFunction`, `DesStandard`):
  with SP tables made from any eight S-boxes and the permutation P, deskey and des compute the DES of FIPS 46-3, for the
  key with the bits of every byte in reverse order; decryption undoes encryption; and a machine whose `unsigned long` has
  64 bits computes the same keys and bytes as one whose `unsigned long` has 32.
- The CRIS opcode look-up (`CrisOpcodes`, `CrisLetters`, `CrisLookup`): the look-up with its six tables of earlier
  results always agrees with the linear search, and what the search finds is said letter by letter.
- The block layer (`Block`, `BlockBytes`, `BlockCommit`): byte access over a sector device is a flat byte array, and
  committing an overlay never changes the image that is seen.
- The buffered migration file (`BufferedFile`): a byte stream over a backend that may take any part of what it is
  offered, put it off, or fail.
- The AIO handlers (`AioList`, `AioWalk`, `Aio`): a linked list whose nodes are added and deleted while it is walked, and
  exactly which callbacks that makes.
- `mktimegm` (`Calendar`): the closed formula against counting days.

## Findings

Three properties the code might be expected to have do not hold; the model keeps the code as it is.

- A read that the last overlapping queued write covers is served by `COPY_DATA_TO_READ_BUFFER`, which runs after the
  flush that has already reset the `'I'` marks of the frames it copies from. `BufferDefect.DemoRun` is a run of three
  requests with a wrong answer. `BufferRuns.RunAnsweredRightIff` says exactly which reads are affected: whatever the
  run, a read is answered right for all data if and only if it does not arrive exposed, and whether it does can be told
  from the sectors and lengths alone.
- `buffered_put_buffer` goes on after its flush has failed: the new bytes can overtake the ones held back, and the
  call reports success. `BufferedFiles.Overtaking` is such a run of a file just opened. `BufferedFiles.OrderSafeIff` is
  the exact condition a caller could check: the order is kept, whatever the backend answers, if and only if nothing is
  held back, nothing is put, or the rate limit is already exceeded.
- `mktimegm` divides rounding towards zero. In `Calendar.DayTooMuch` it is a day wrong; `Calendar.MkTimeGmIff` says for
  which of all years, including negative ones, it is right; from 1970 on it always is.

## Model

| member | source | states |
|---|---|---|
| BufferTheorems.ReorderingInvisible | FIRMWARE/ssd.c:50-55 | From power-on, for every sequence of reads and writes: the answers delivered followed by those still owed are, one for one and in arrival order, what a plain disk executing the requests in arrival order would answer, for every read that does not arrive exposed (see BufferRuns.RunAnsweredRightIff). |
| BufferTheorems.RunEffect | FIRMWARE/ssd.c:50-90 | Over every run the disk the host has written (flash with the queued valid writes replayed over it) is the plain disk's, every reached state keeps the queue and span shape, and no answer is lost, duplicated or reordered. |
| BufferTheorems.PromisesFaithful | FIRMWARE/firm_buffer_manager.c:369-442 | Every read of a run that does not arrive exposed is promised exactly the plain disk's answer; exposed ones at least its sector and length. |
| BufferTheorems.TerminateDurable | FIRMWARE/firm_buffer_manager.c:112-122 | After any run, flushing the whole queue leaves on flash exactly what the plain disk holds, and all reads answered as promised. |
| BufferTheorems.EnqueueWriteEffect | FIRMWARE/firm_buffer_manager.c:444-525 | Whatever writes it drops or merges, queueing a write changes the visible disk as that one write does, changes no outstanding answer, uses exactly as many frames as it has sectors, and keeps the shape (the last queued write stays valid). |
| BufferTheorems.DequeueInvisible | FIRMWARE/firm_buffer_manager.c:235-318 | Taking an event off the queue, whether a read, a valid write or a dropped one, changes neither the visible disk nor any outstanding answer. |
| BufferTheorems.FlushTakesPrefix | FIRMWARE/firm_buffer_manager.c:657-690 | A flush past the reads answers all of them and executes exactly the first k writes, and releases all frames up to a valid last one. |
| BufferTheorems.FlushAllEmpties | FIRMWARE/firm_buffer_manager.c:834-837 | A full flush empties the queue, frees every frame of the ring (no leftover survives) and leaves the visible disk on flash. |
| BufferTheorems.SsdWriteEffect | FIRMWARE/ssd.c:50-55 | A write not longer than the ring always fits when it is queued: either there was room or the full flush made it. |
| BufferTheorems.SsdReadEffect | FIRMWARE/ssd.c:84-89 | A read not longer than the read buffer always fits; it adds one promise at the end of the answers owed and leaves the visible disk alone. |
| BufferTheorems.EnqueueReadEffect | FIRMWARE/firm_buffer_manager.c:369-442 | Queueing a read adds exactly one promised answer, after a prefix flush that cannot be seen, and takes exactly its length of read frames. |
| BufferTheorems.PromiseCorrect | FIRMWARE/firm_buffer_manager.c:386-403 | A read is promised the visible disk's sectors, from flash when no queued write overlaps it, from the flushed prefix, or from the write buffer, unless it is exposed. |
| BufferTheorems.CopyRightIff | FIRMWARE/firm_buffer_manager.c:582-655 | On frames: the copy after a flush returns the requested sectors for every contents if and only if no superseded frame comes before their end. |
| BufferTiming.SsdWriteHands | FIRMWARE/ssd.c:50-55 | SSD_WRITE hands over exactly the reads completed before it. With room for the write, the flash, the frames left behind and the queued reads stay as they are; without, everything queued goes first and only the new write is queued after. |
| BufferTiming.SsdReadHands | FIRMWARE/ssd.c:84-89 | SSD_READ hands over the reads completed before it, and all that is owed if its own would not fit then; it flushes exactly the writes up to the last valid one that overlaps it, and none if there is none; it is queued behind the reads. |
| BufferTiming.CompletedAreHanded | FIRMWARE/firm_buffer_manager.c:320-367 | Over every run: what has been handed over by the end of a request begins with all that was handed over or completed before it. |
| BufferTiming.QueueAfterWrite | FIRMWARE/firm_buffer_manager.c:465-525 | Exactly the queued writes inside the new one are dropped, with all their frames superseded; the last write takes up the new one exactly when it ends where that starts, or loses two sectors or more at its end to it and is outreached; otherwise the new write is added; all else stays. |
| BufferDefect.AnsweredRightIff | FIRMWARE/firm_buffer_manager.c:386-403 | In every shaped state: a read is answered correctly whatever data the frames hold if and only if it is not exposed, that is, unless the last overlapping write covers it and has a superseded frame before the end of the requested sectors. |
| BufferDefect.ExposedIsWrong | FIRMWARE/firm_buffer_manager.c:582-655 | For every exposed read there is a state with the same queues and statuses whose answer is wrong. |
| BufferDefect.DemoRun | FIRMWARE/firm_buffer_manager.c:397-403 | A run from power-on (write 0-3, write 2-5, read 4-5) in which the firmware's answer differs from the plain disk's. |
| BufferRuns.RunAnsweredRightIff | FIRMWARE/firm_buffer_manager.c:386-403 | From power-on, for every sequence of requests and every read of it: the read is answered as the plain disk answers it in all runs with the same sectors and lengths, whatever data they write, if and only if it does not arrive exposed. |
| BufferRuns.AlikeExposures | FIRMWARE/firm_buffer_manager.c:369-525 | Two runs whose requests differ in data alone take the same course: the same reads arrive exposed. |
| BufferRuns.LabelledRunWrong | FIRMWARE/firm_buffer_manager.c:582-655 | In the run that writes a value of its own to every sector, every exposed read gets a wrong answer. |
| BufferSessions.Session | FIRMWARE/ssd.c:50-90 | The class itself, from INIT_IO_BUFFER through any requests to SECURE_READ_BUFFER and TERM_IO_BUFFER: the host gets one answer per read, in arrival order and, unless the read arrived exposed, the plain disk's; the flash ends up as the plain disk. |
| BufferSessions.Serve | FIRMWARE/ssd.c:50-90 | Driving the class through a sequence of requests is the value-level run, state and answers. |
| BufferWrites.ElideSameOutside | FIRMWARE/firm_buffer_manager.c:465-479 | Dropping the writes a new write hides leaves the replayed disk the same outside the new write's sectors. |
| BufferWrites.MergeEffect | FIRMWARE/firm_buffer_manager.c:481-503 | Replaying the merged write equals replaying the old last write and then the new data, for sequential and for overlapping merges. |
| BufferSpec.DequeueKeepsShape | FIRMWARE/firm_buffer_manager.c:235-318 | The span invariant survives a dequeue: leftover frames are all superseded, a valid span has one 'V' frame per sector and ends in one, an invalid one has none, and with no queued write there is no leftover. |
| IoBuffers.IoBuffer.SsdWrite | FIRMWARE/ssd.c:50-55 | The imperative write step refines the value-level one and delivers exactly the reads completed before it; the pointer mismatch branch is never taken. |
| IoBuffers.IoBuffer.SsdRead | FIRMWARE/ssd.c:84-89 | The imperative read step refines the value-level one; it delivers the reads completed before it and, if need be, the others to make room. |
| IoBuffers.IoBuffer.EnqueueWrite | FIRMWARE/firm_buffer_manager.c:444-525 | On linked entries and ring frames: hidden writes are invalidated and their frames marked, the last write is extended or trimmed and extended, or a new entry is linked, as the value-level step says. |
| IoBuffers.IoBuffer.EnqueueRead | FIRMWARE/firm_buffer_manager.c:369-442 | On linked entries and both rings: dependency scan, prefix flush, copy out of the freed frames and insertion behind the queued reads, as the value-level step says. |
| IoBuffers.IoBuffer.DequeueIo | FIRMWARE/firm_buffer_manager.c:235-318 | The first entry leaves the queue: a read moves to the completed queue with its place in the read buffer, a valid write is executed page by page, an invalid one is unlinked. |
| IoBuffers.IoBuffer.FlushUntil | FIRMWARE/firm_buffer_manager.c:657-690 | Dequeues exactly the prefix that ends in the given entry, and nothing for a null entry. |
| IoBuffers.IoBuffer.Deliver | FIRMWARE/firm_buffer_manager.c:320-367 | All completed reads are handed over in order, each with its own data; whenever one is delivered, sata_read_ptr equals its buf, so the error branch is unreachable. |
| IoBuffers.IoBuffer.DeliverFirst | FIRMWARE/firm_buffer_manager.c:565-580 | One delivery: the data is the read's, and the pointer comparison succeeds. |
| IoBuffers.IoBuffer.CheckDependencyForRead | FIRMWARE/firm_buffer_manager.c:745-783 | Finds the last valid queued write that overlaps the read, or null when there is none. |
| IoBuffers.IoBuffer.CopyToReadBuffer | FIRMWARE/firm_buffer_manager.c:582-655 | Copies the requested sectors out of the frames, counting every frame not marked 'I' at the time of the copy; both scans stop inside the span. |
| IoBuffers.IoBuffer.SecureWrite | FIRMWARE/firm_buffer_manager.c:834-837 | Flushes the whole queue. |
| IoBuffers.IoBuffer.SecureRead | FIRMWARE/firm_buffer_manager.c:839-849 | Completes and delivers every queued read, in order, after the ones already completed. |
| IoBuffers.IoBuffer.Terminate | FIRMWARE/firm_buffer_manager.c:112-122 | Leaves the visible disk on flash and both queues empty. |
| IoBuffers.IoBuffer.WriteCounter | FIRMWARE/firm_buffer_manager.c:950-1079 | In every valid state empty_write_buffer_frame is the number of '0' frames and the ring size minus leftover and spans. |
| IoBuffers.IoBuffer.ReadCounter | FIRMWARE/firm_buffer_manager.c:977-998 | In every valid state empty_read_buffer_frame is the capacity minus the lengths of all queued and all completed undelivered reads. |
| IoBuffers.IoBuffer.FtlWrite | FTL/PAGE_MAP/ftl.c:265-376 | The page loop over the ring, with both failures. Success: exactly the span's live values are on flash, its pages are mapped, the limit pointer follows once and exactly the span is released. Sectors off the device: nothing changes. No new page: the sectors of the pages before are on flash, and the frames handed over stay unreleased. |
| IoBuffers.IoBuffer.FtlRead | FTL/PAGE_MAP/ftl.c:146-263 | Succeeds if and only if the sectors are on the device and every page they touch has a mapping; either way of failing moves the ring pointers as the source does, and otherwise the sectors go to the read ring in order, out of the frames reserved for them. |
| PageMap.PagesAreTouched | FTL/PAGE_MAP/ftl.c:173-197 | The skip arithmetic of the loops visits exactly the pages that hold a sector of the range. |
| PageMap.PagesInOrder | FTL/PAGE_MAP/ftl.c:298-351 | The pages are visited in order, each once. |
| PageMap.WrittenAllIff | FTL/PAGE_MAP/ftl.c:298-351 | All sectors are stored if and only if GET_NEW_PAGE finds a page for every page of the range. |
| PageMap.WrittenIsMapped | FTL/PAGE_MAP/ftl.c:338-339 | A sector that was stored is on a mapped page afterwards, also after a write that failed half way. |
| WriteRings.WriteRing.IncreaseSata | FIRMWARE/firm_buffer_manager.c:950-975 | New sectors take free frames behind the newest one; no frame in use is overwritten. |
| WriteRings.WriteRing.IncreaseFtl | FIRMWARE/firm_buffer_manager.c:1000-1030 | Skipping superseded frames, hands over exactly the next n live values and stops at the end of the span; terminates. |
| WriteRings.WriteRing.IncreaseLimit | FIRMWARE/firm_buffer_manager.c:1054-1079 | Releases exactly the handed-over frames, including the case where they are the whole ring and limit equals ftl. |
| WriteRings.WriteRing.Supersede | FIRMWARE/firm_buffer_manager.c:864-897 | Marks exactly the 'V' frames of one span, counting them down; the scan stops inside the span and no other frame changes. |
| WriteRings.WriteRing.SupersedeRear | FIRMWARE/firm_buffer_manager.c:912-948 | Keeps the first sectors of a span and marks exactly its last n live frames; both scans stop inside the span. |
| WriteRings.WriteRing.EmptyIsFree | FIRMWARE/firm_buffer_manager.c:950-1079 | The counter equals the number of '0' frames in the array, whatever the wrap-around. |
| ReadRings.ReadRing.IncreaseSata | FIRMWARE/firm_buffer_manager.c:977-998 | First in, first out: the oldest n sectors go to the host, in order. |
| EventQueues.HostQueues.AddRead | FIRMWARE/firm_buffer_manager.c:410-431 | On the linked list: the new read goes behind the queued reads and in front of the writes; tail, entry_nb and last_read_entry follow. |
| EventQueues.HostQueues.CompleteRead | FIRMWARE/firm_buffer_manager.c:253-317 | The first read moves to the end of the completed list, with its place filled in if it had none. |
| EventQueues.HostQueues.DropWrite | FIRMWARE/firm_buffer_manager.c:253-265 | The first write is unlinked and freed; both lists stay well formed. |
| EventQueues.HostQueues.CountReads | FIRMWARE/firm_buffer_manager.c:1102-1119 | COUNT_READ_EVENT returns the number of queued reads. |
| EventQueues.HostQueues.LastReadIs | FIRMWARE/firm_buffer_manager.h:19-34 | last_read_entry is the last read, or null when there is none. |
| EventQueues.HostQueues.Heads | FIRMWARE/firm_buffer_manager.h:19-34 | head, tail and entry_nb agree with the entries in both lists. |
| EventQueues.InsertAfterOk | FIRMWARE/firm_buffer_manager.c:410-431 | Pointer level: inserting behind the last read gives the list with the entry at that place, and touches no other node's contents. |
| AesTables.InvMixColumnMixColumn | QEMU/aes.c:46-58 | The products of the decryption tables undo those of the encryption tables: the two circulant matrices over GF(2^8) are inverse. |
| AesTables.InvMixColumnXor | QEMU/aes.c:853-876 | InvMixColumns is linear, which is what lets the round keys be transformed in advance. |
| AesTables.TeColumn | QEMU/aes.c:982-987 | Four T-table look-ups substitute and mix one column. |
| AesTables.TdColumn | QEMU/aes.c:1173-1178 | Four look-ups of the decryption tables apply InvSubBytes and InvMixColumns to one column. |
| AesTables.MaskColumn | QEMU/aes.c:1042-1047 | Four masked look-ups of Te4 or Td4 substitute one column without mixing. |
| AesCipher.TeRound | QEMU/aes.c:976-1068 | Sixteen look-ups and four key words are SubBytes, ShiftRows, MixColumns and AddRoundKey; the masked form is the last round. |
| AesCipher.TdRound | QEMU/aes.c:1167-1259 | The same for the rounds of the equivalent inverse cipher. |
| AesCipher.InvCipherUndoes | QEMU/aes.c:885-1261 | The Inverse Cipher of FIPS 197 section 5.3 undoes the Cipher, for every block, schedule and number of rounds. |
| AesCipher.EquivalentInverse | QEMU/aes.c:832-878 | FIPS 197 section 5.3.5: with reversed and InvMixColumned round keys, the equivalent inverse cipher is the inverse cipher. |
| AesCipher.EqInvCipherUndoes | QEMU/aes.c:832-1261 | Decryption under the converted schedule inverts encryption under the original one, for every block. |
| AesKeys.RconTable | QEMU/aes.c:722-726 | The ten constants are the powers of x in GF(2^8), as FIPS 197 defines Rcon. |
| AesKeys.Expand128 | QEMU/aes.c:756-773 | The loop fills 44 words with the KeyExpansion recursion of FIPS 197 for a key of four words. |
| AesKeys.Expand192 | QEMU/aes.c:776-795 | The loop, which stops inside its last group, fills 52 words with the recursion for six words. |
| AesKeys.Expand256 | QEMU/aes.c:798-825 | The loop fills 60 words with the recursion for eight words, including the extra substitution in the middle of a group. |
| AesKeys.SetEncryptKey | QEMU/aes.c:731-827 | The schedule is KeyExpansion of the user key and the number of rounds is right for 128, 192 and 256 bits; any other size is refused with -2 and changes nothing. |
| AesKeys.ReverseRoundKeys | QEMU/aes.c:846-852 | The four-word groups are reversed in place. |
| AesKeys.InvMixRoundKeys | QEMU/aes.c:853-876 | Exactly the inner round keys go through InvMixColumns, done by table look-ups through S and Si. |
| AesKeys.SetDecryptKey | QEMU/aes.c:832-878 | The schedule is the decryption schedule that belongs to KeyExpansion of the user key. |
| AesBlocks.EncryptState | QEMU/aes.c:885-1070 | The two-rounds-a-turn loop computes the Cipher of FIPS 197 under the key's schedule. |
| AesBlocks.DecryptState | QEMU/aes.c:1076-1261 | The loop computes the equivalent inverse cipher. |
| AesBlocks.Encrypt | QEMU/aes.c:885-1070 | Exactly the 16 output bytes become the cipher of the 16 input bytes, also when input and output overlap. |
| AesBlocks.Decrypt | QEMU/aes.c:1076-1261 | Exactly the 16 output bytes become the inverse cipher of the 16 input bytes, also when input and output overlap. |
| AesBlocks.DecryptUndoesEncrypt | QEMU/aes.c:885-1261 | On bytes: decryption under the decryption schedule undoes encryption, for every block. |
| AesBlocks.EncryptThenDecrypt | QEMU/aes.c:731-1261 | Through the four entry points, for every 128, 192 and 256 bit key and every block, in place: the block comes back. |
| AesStandard.StateAt | QEMU/aes.c:897-904 | The input bytes fill the state column by column, as in section 3.4 of FIPS 197. |
| AesStandard.SubBytesAt | QEMU/aes.c:976-1068 | Byte by byte: SubBytes substitutes every byte of the state in its place. |
| AesStandard.ShiftRowsAt | QEMU/aes.c:976-1068 | Byte by byte: row r of the state moves r columns to the left. |
| AesStandard.AddRoundKeyAt | QEMU/aes.c:976-1068 | Byte by byte: the round key is added. |
| AesStandard.MixColumnsAt | QEMU/aes.c:46-58 | Byte by byte: each byte is the sum over its column of the products with 02, 03, 01 and 01 in GF(2^8), moved round by the row. |
| AesStandard.XTimeMeans | QEMU/aes.c:46-58 | Multiplication by x takes the bit shifted out back as 1b. |
| AesStandard.RotWordMeans | QEMU/aes.c:758-765 | RotWord of the key schedule turns the word left by a byte. |
| AesCbc.RoundTrip | QEMU/aes.c:1265-1314 | Decrypting what CBC encryption produced from the same chaining value gives the bytes back, for every length, with a partial last block or none. |
| AesCbc.EncryptAppend | QEMU/aes.c:1277-1285 | Whole blocks first and then more bytes with the carried ivec is encrypting them all at once. |
| AesCbc.DecryptAppend | QEMU/aes.c:1296-1305 | The same for decryption. |
| AesCbc.PartialIsZeroPadded | QEMU/aes.c:1286-1294 | A partial last block is encrypted as if filled with zero bytes. |
| AesCbc.CipherBlock | QEMU/aes.c:1276-1294 | For every block, whole or partial: it is the encryption of the plain block chained to the cipher block before it, the first one to iv (NIST SP 800-38A section 6.2). |
| AesCbc.PlainBlock | QEMU/aes.c:1295-1313 | For every block: it is the decrypted cipher block added to the cipher block before it, the first one to iv. |
| AesCbcMode.CbcEncryptInto | QEMU/aes.c:1276-1294 | On arrays, in place or not: exactly the rounded-up output range becomes the CBC cipher text, and ivec its last block. |
| AesCbcMode.CbcEncryptTwice | QEMU/aes.c:1276-1294 | Two calls, the first over whole blocks, with the carried ivec leave the output and the ivec of one call, also in place. |
| AesCbcMode.CbcDecryptInto | QEMU/aes.c:1295-1313 | On arrays, in place or not: exactly the output range becomes the plain text; ivec is the last cipher block, or after a partial block that block's decryption. |
| AesCbcCalls.CbcDecryptTwice | QEMU/aes.c:1295-1313 | Two calls, the first over whole blocks, with the carried ivec leave the output and the ivec of one call, also in place. |
| AesCbcCalls.EncryptThenDecrypt | QEMU/aes.c:731-1314 | Through the key-setting operations, for every 128, 192 and 256 bit key, chaining value and length, in place: the bytes come back, and no byte outside their blocks changes. |
| DesPermutation.InitialIsStandard | QEMU/d3des.c:329-345 | The five exchanges and two rotations are the initial permutation of FIPS 46-3, with both halves rotated left by one bit. |
| DesBits.InitialFinal | QEMU/d3des.c:329-392 | The bit-exchange initial permutation undoes the final one, up to the exchange of the halves. |
| DesBits.FinalInitial | QEMU/d3des.c:329-392 | The final permutation of exchanged halves undoes the initial one. |
| DesBits.InitialWide | QEMU/d3des.c:329-345 | On 64-bit longs the initial permutation keeps the high halves clear and the low halves right. |
| DesBits.FinalLow | QEMU/d3des.c:374-392 | On 64-bit longs the unmasked rotations of the final permutation dirty only the high halves. |
| DesRounds.RoundsBack | QEMU/d3des.c:347-372 | Any number of Feistel rounds is undone by the same rounds with reversed subkeys on exchanged halves. |
| DesRounds.DesInverse | QEMU/d3des.c:322-394 | For arbitrary SP tables, every block and every list of subkeys, the reversed subkeys undo the cipher. |
| DesRounds.LongFIs | QEMU/d3des.c:348-358 | The cipher function on 64-bit longs, with its rotation that is none there, equals the one on 32-bit words, whatever the high halves of the keys hold. |
| DesRounds.DesFunc | QEMU/d3des.c:322-394 | The in-place loop, two rounds a turn, computes initial permutation, sixteen rounds over the given tables and final permutation; that these are the rounds of FIPS 46-3 is FIsStandard and DesIsStandard. |
| DesRounds.DesFuncLong | QEMU/d3des.c:322-394 | The same loop on 64-bit longs computes the same 32 low bits, for every register; for the standard see EncipherLong. |
| DesKeys.ShiftedIsRotated | QEMU/d3des.c:57-58 | The table of total rotations is what the successive shifts of FIPS 46-3 add up to. |
| DesKeys.RawKeys | QEMU/d3des.c:67-99 | The nested loops put round i's raw words at place i, or at place 15 - i for decryption. |
| DesKeys.CookKeys | QEMU/d3des.c:102-122 | Every place's raw words are cooked in turn. |
| DesKeys.KeyRegister.DesKey | QEMU/d3des.c:67-122 | The register holds the round keys of the schedule in order, or for DE1 pairwise reversed. |
| DesKeys.KeyRegister.Des | QEMU/d3des.c:142-176 | The output bytes are the cipher of the input bytes under the register, also when both arrays are the same. |
| DesKeys.KeyRegister.EncryptThenDecrypt | QEMU/d3des.c:67-176 | For every key, block and SP tables: des under DE1 undoes des under EN0. |
| DesKeys.DesBytesInverse | QEMU/d3des.c:142-176 | On bytes, reversed subkeys undo the cipher. |
| DesLongs.WideCook | QEMU/d3des.c:109-119 | On 64-bit longs the cooked words of a round are the same: no field moves past bit 31. |
| DesLongs.LongRawIs | QEMU/d3des.c:93-96 | Key bits collected in a long are those collected in a word. |
| DesLongs.LongRegister.DesKey | QEMU/d3des.c:67-122 | With 64-bit longs, for every key and edf: the register holds the words of the 32-bit register with clear high halves, hence the schedule, or for DE1 the reversed one. |
| DesLongs.LongRegister.Des | QEMU/d3des.c:142-176 | With 64-bit longs, for every register, also one filled by usekey: the output bytes are the cipher of the input bytes under the low halves, also when both arrays are the same. |
| DesLongs.LongRegister.EncryptThenDecrypt | QEMU/d3des.c:67-176 | With 64-bit longs, for every key, block and SP tables: des under DE1 undoes des under EN0. |
| DesCipherFunction.FIsStandard | QEMU/d3des.c:348-358 | For every half, every two raw key words and any eight S-boxes: the eight look-ups on the turned half and the cooked key, in tables made from the S-boxes and P, are f(R, K) of FIPS 46-3 with its tables E and P, on bits, turned like the halves. |
| DesStandard.RawWordsAreKey | QEMU/d3des.c:83-97 | The bits of a round's raw words are K of FIPS 46-3: what PC-2 chooses from the halves after the round's shifts. |
| DesStandard.KeyIsMirrored | QEMU/d3des.c:38-39 | The key bits are those PC-1 chooses from the key with the bits of every byte in reverse order. |
| DesStandard.DesIsStandard | QEMU/d3des.c:322-394 | For any S-boxes, every key and every block: the cipher block is the one whose initial permutation is R16 L16 after the sixteen rounds of FIPS 46-3 on L0 R0. |
| DesStandard.Encipher | QEMU/d3des.c:67-176 | Through deskey and des, on byte arrays: the output is the DES of FIPS 46-3 of the input. |
| DesStandard.EncipherLong | QEMU/d3des.c:67-176 | The same where unsigned long has 64 bits. |
| CrisLookup.OpcodeCache.GetOpcodeEntry | QEMU/cris-dis.c:1381-1597 | For one family and whatever was looked up before: the result is the uncached search's, and the tables keep agreeing with it; the mutual recursion terminates. |
| CrisLookup.OpcodeCache.CrisConstraint | QEMU/cris-dis.c:1603-1754 | The loop accepts exactly when every letter's demand is met and, with a prefix, one letter admits it, and returns its confidence or -1 (see ConstraintMeans); the look-ups of the prefix it makes always find an entry, so no null entry is dereferenced. |
| CrisLetters.ConstraintMeans | QEMU/cris-dis.c:1603-1754 | Without the loop: each letter's own demand on the instruction's bits, prefix, family and registers, all met, and some admitting letter if there is a prefix; the value is 5 from the last D, if any, and 3 for every P after it; otherwise -1. |
| CrisLetters.LevelMeans | QEMU/cris-dis.c:1491-1581 | An entry has a level exactly if it is for the family, has its bits where it fixes them and accepts the instruction; the level is the letters' value and twice the fixed bits. |
| CrisLetters.AppliesMeans | QEMU/cris-dis.c:1499-1551 | Entries are considered by the range of chip versions they stand for. |
| CrisLetters.RegAppliesMeans | QEMU/cris-dis.c:1334-1364 | The same for special registers. |
| CrisLookup.LookUpMeans | QEMU/cris-dis.c:1381-1597 | A look-up gives an entry that fits the instruction after its prefix, and one whenever there is one; none for a prefix that is no instruction. |
| CrisLookup.OpcodeCache.FindBest | QEMU/cris-dis.c:1491-1581 | The search loop, with its early exit, computes the best match. |
| CrisLookup.OpcodeCache.RecordPrefixed | QEMU/cris-dis.c:1583-1594 | An entry kept for one prefix is right for every prefix of its class. |
| CrisLookup.RealSizesOk | QEMU/cris-dis.c:60-119 | The special register table has only sizes the caching can tell apart, for every family. |
| CrisOpcodes.ClassDecides | QEMU/cris-dis.c:1433-1483 | The search depends on a prefix only through its class: DIP, BDAPQ of -1, -2 or -4, or the rest. |
| CrisOpcodes.CachingRightIff | QEMU/cris-dis.c:1434-1483 | For a register table and a family: keeping results by class of prefix is right for every opcode table without aborting entries if and only if no register has a size that a BDAPQ offset without a table of its own would push. The only-if half makes its own opcode table, which need not be the source's. |
| CrisOpcodes.BestIs | QEMU/cris-dis.c:1491-1581 | The search finds the first entry of level 32 or more, or else the first entry of the highest level; none only if nothing matches. |
| CrisOpcodes.NumberOfBits | QEMU/cris-dis.c:1368-1377 | Clearing the lowest one until none is left counts the ones. |
| CrisOpcodes.SpecRegInfo | QEMU/cris-dis.c:1334-1364 | The index is the least one of a register with that number that the family has; none is returned only if there is no such register. |
| Block.PatchIsOverlay | QEMU/block.c:676-687 | Reading a sector, patching some bytes and writing it back changes exactly those bytes. |
| Block.BlockDevice.BdrvRead | QEMU/block.c:586-597 | Succeeds exactly for requests inside the medium on which the driver does not fail, and then returns the sectors' bytes. |
| Block.BlockDevice.BdrvWrite | QEMU/block.c:605-617 | On success exactly the requested bytes change; on failure every byte is old, or new inside the request. |
| BlockBytes.PRead | QEMU/block.c:619-661 | For every offset and count, success returns exactly that slice of the flat byte array; it succeeds if and only if all touched sectors are on the medium and none of the driver calls it made has failed. |
| BlockBytes.PWrite | QEMU/block.c:663-709 | For every offset and count, success changes exactly [offset, offset + count) to the given bytes; failure leaves every byte old, or new inside the range; it succeeds if and only if the sectors are there and writable and none of the driver calls it made has failed. |
| BlockBytes.WriteThenRead | QEMU/block.c:619-709 | What was written is what is read. |
| BlockCommit.Commit | QEMU/block.c:515-555 | The result exactly: the three refusals have their own codes; it ends with -EIO at the first own sector that cannot be read or that the backing image does not take, with the sectors before it copied; otherwise everything is copied and it returns 0 or what emptying returns. Whether it succeeds or fails half way, the overlay shows the image it showed; after success the backing image alone shows it, so emptying the overlay changes nothing, and nothing behind its end changes. |
| BlockCommit.CommitRun | QEMU/block.c:536-545 | One allocated run: it stops at the first sector that cannot be copied, and succeeds if and only if there is none. |
| BlockCommit.CommitSector | QEMU/block.c:537-543 | One sector: 0 if and only if it can be read and the backing image is inserted, writable, large enough or growable, and its driver call does not fail; -EIO otherwise, with the backing image unchanged. |
| BlockCommit.NoFaultCopies | QEMU/block.c:533-551 | Without faults, on a writable backing image with room, every sector can be copied, so a commit that is not refused succeeds. |
| BlockCommit.AllCopied | QEMU/block.c:533-551 | Once every run is handled, the image is the same with the overlay as it is and with the overlay empty. |
| BufferedFiles.RunConserves | QEMU/buffered_file.c:49-232 | In every run over every backend: as long as no error is set, the bytes delivered followed by the bytes held are all bytes put, in order. |
| BufferedFiles.UseAndClose | QEMU/buffered_file.c:162-261 | Opened, used in any way and closed: an error is set if and only if a call of the backend has failed, and otherwise exactly the bytes put have been delivered. |
| BufferedFiles.PutConserves | QEMU/buffered_file.c:110-160 | A put keeps the conservation law across flush, direct offers, rate limit and appending. |
| BufferedFiles.RunFails | QEMU/buffered_file.c:49-232 | In every run over every backend: the error is set if and only if it was, or one of the calls made meanwhile was answered with an error, EAGAIN being none. |
| BufferedFiles.PutGoesOut | QEMU/buffered_file.c:110-160 | A put takes a file out of its freeze: within the budget and with a backend that takes what it is offered, what was held and what is put go out entirely. |
| BufferedFiles.PutWithinLimit | QEMU/buffered_file.c:128-153 | The counter counts the bytes puts send of their own, and no offer starts over the limit. |
| BufferedFiles.TickRenews | QEMU/buffered_file.c:214-232 | A tick renews the budget: whatever was sent before it, a put within the limit goes out entirely after it. |
| BufferedFiles.TickFlushes | QEMU/buffered_file.c:214-232 | A tick leaves a frozen or failed file alone, and otherwise sets the counter to 0 and flushes, losing and reordering nothing. |
| BufferedFiles.OrderKeptIff | QEMU/buffered_file.c:110-160 | For given replies and bytes: a put keeps the order if and only if its flush does not fail or the new bytes it sends happen to continue what was held. |
| BufferedFiles.OrderSafeIff | QEMU/buffered_file.c:110-160 | What a caller can check: a put keeps the order for every backend and all bytes if and only if nothing is held, nothing is put, or the limit is already exceeded. |
| BufferedFiles.OverLimitHolds | QEMU/buffered_file.c:127-159 | Over the limit a put sends none of its own bytes: they all go behind the held ones. |
| BufferedFiles.Overtaking | QEMU/buffered_file.c:110-160 | A run of a file just opened: the first byte is put off, its flush fails in the second put, the second byte is taken; it is out before the first, and the put reports success. |
| BufferedFiles.BufferedFile.Flush | QEMU/buffered_file.c:73-108 | The buffer keeps exactly what the backend did not take; put off freezes, failure sets the error. |
| BufferedFiles.BufferedFile.PutBuffer | QEMU/buffered_file.c:110-160 | Held bytes first, then the new ones, the rest held; -EINVAL with nothing done after an error. |
| BufferedFiles.BufferedFile.Append | QEMU/buffered_file.c:49-71 | The bytes go behind the held ones, in a larger buffer when the capacity does not do; the size never exceeds the capacity. |
| BufferedFiles.BufferedFile.Close | QEMU/buffered_file.c:162-183 | Against every backend that does not put off for ever, flushing ends; the error is set if and only if it was or one of the calls made has failed; without an error everything has been delivered. |
| BufferedFiles.BufferedFile.RateTick | QEMU/buffered_file.c:214-232 | The timer flushes with a new budget unless there is an error or the output is frozen; it is set again unless there is an error, and put_ready is called exactly when it flushed. |
| Aio.Handlers.SetFdHandler | QEMU/aio.c:54-96 | The live nodes are a map from descriptors to handlers, which changes at that descriptor alone; there is never more than one live handler per descriptor; while handlers are walked no node goes and the old list stays as the tail of the new one. |
| Aio.Handlers.Find | QEMU/aio.c:41-52 | The live handler of the descriptor, or none when there is none. |
| Aio.Handlers.Invoke | QEMU/aio.c:175-184 | Only live nodes are called; whatever registrations the callback makes, no node is freed under the walk, exactly the nodes of the descriptors it unregisters are marked, and the registry changes by its registrations in turn. |
| Aio.Handlers.Visit | QEMU/aio.c:172-193 | One node: it is still allocated, exactly the callbacks due for its descriptor at that moment are made, for reading and then for writing; it is freed only after its successor is known, and freeing it changes no handler. |
| Aio.Handlers.Dispatch | QEMU/aio.c:166-196 | For every behaviour of the callbacks: the walk touches only allocated nodes, ends, and leaves a well-formed list. The callbacks made are exactly those due, node by node in the order of the list at the start: that of the handler the descriptor has at that moment, unless a callback has unregistered it since the walk began. Each is for a ready descriptor and never of a deleted or replaced handler; descriptors no callback registers for get what was due at the start. |
| AioWalk.WalkKept | QEMU/aio.c:166-196 | The descriptors that no callback registers for get exactly the callbacks due at the start, in list order. |
| AioList.InsertLinked | QEMU/sys-queue.h:110-115 | LIST_INSERT_HEAD on the pointers gives the list with the node in front. |
| AioList.RemoveLinked | QEMU/sys-queue.h:117-122 | LIST_REMOVE on the pointers gives the list without the node. |
| Calendar.MkTimeGmIff | QEMU/cutils.c:99-111 | For all integer years and every month, day and time: the formula equals the Gregorian day count times 86400 plus the time of day if and only if the year counted from March is not negative or is a leap year; otherwise it is one day too much. |
| Calendar.DayTooMuch | QEMU/cutils.c:99-111 | On 1 March of the year -1 (tm_year -1901) the formula is a day too much. |
| Calendar.MkTimeGmIsSeconds | QEMU/cutils.c:99-111 | From 1970 on it is the seconds since the Epoch of POSIX.1-2017, Base Definitions section 4.16. |
| Calendar.NextDayIsADayLater | QEMU/cutils.c:99-111 | From every valid day of 1970 or later to the next one, over month and year ends, is exactly 86400 seconds. |

## Assumptions

- Firmware requests have at least one sector, at most the capacity of their buffer, and lie inside the device; sector
  numbers and counters do not overflow. A write of zero sectors would make the `do`-`while` of
  `INCREASE_WB_LIMIT_POINTER` release the whole ring.
- `SECTORS_PER_PAGE` is positive; flash is a map from sectors to values. Whether `GET_NEW_PAGE` finds a page is a
  parameter of `FtlWrite`. `DEQUEUE_IO` ignores a failure, after which the limit pointer stays behind; the runs of the
  buffer assume that there are pages.
- Host data is a parameter of a write. The source moves pointers only and carries no data.
- Fault behaviour is a parameter: which driver call fails and how far it got (`Block`), what the backend answers
  (`BufferedFile`), what registrations a callback makes (`Aio`). Every theorem holds for all of them.
- `Close` needs a backend that does not answer EAGAIN for ever; the source would loop too.
- A growable image reads as zeros behind its end, and a failed sector write leaves each sector old or new.
- An overlay's driver answers with runs of at least one sector, of one state and inside the image.
- The CRIS opcode table has no entry of a version on which the search aborts, and one family is looked up at a time.

## Left out

- `SSD_THREAD`, the locks and the busy-wait flags of `FIRMWARE/ssd.c:29-48`: they depend on scheduling; the sequential build is modelled.
- Physical pages, garbage collection, the status of a NAND operation and NAND timing behind `FTL_READ` and `FTL_WRITE`: their effect on sectors, mapped pages and ring pointers is modelled.
- Allocation failures, debug output and workload logging.
- The literal values of the AES and DES tables: AES tables come from their defining rule over an arbitrary S-box, SP tables are arbitrary functions, or made from arbitrary S-boxes where the standard is concerned.
- The fully unrolled AES rounds, which are not compiled.
- The walk of `qemu_aio_wait` that fills the descriptor sets, `select`, and nested calls of `qemu_aio_wait` from a callback.
- Calls that change the CRIS family between look-ups: the source's tables are not keyed by family.
- The I/O vector functions of `QEMU/cutils.c`, the block drivers, snapshots, the disassembler's printing and everything else in QEMU: easy members, text output, or code behind callbacks.
- Queue entries and handlers are nodes of a map from addresses rather than objects; allocation, aliasing and freeing are explicit in that map.
- IoBuffers.IoBuffer.EnqueueRead: the entry's buf and the temporary copy of the serving entry are kept, but the answer is promised to be right only for reads that are not exposed, because the copy runs after the flush.
- AesCbcMode.CbcDecryptInto: after a partial block nothing is claimed about going on with ivec, because the source leaves the decrypted block there.
- Calendar.MkTimeGmIff: time_t is unbounded.
