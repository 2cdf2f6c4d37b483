# Rolling checksums and content-defined chunking, verified

A Dafny model of `rollinghash` v4: rolling hashes over a byte window, bulk loops that evaluate a hash at
every window of a buffer, and the streaming machines built on them (chunker, chunk writer, batch roller,
batch writer). Everything is proved for all inputs; there is no bound on sizes except the machine limits
the source itself has (`int`, `int32`, `uint32`, 64-bit words), which are written out.

The main results, from the bottom up:

- **Hashes.** Each digest (buzhash64, gearhash64, rabinkarp64, adler32) is a class on a circular window
  rearranged in place. For any sequence of Write, Roll and Reset its checksum is a stand-alone definition
  applied to the window, oldest byte first: the cyclic polynomial, the shifted sum modulo 2^64, the message
  polynomial reduced over GF(2), the two sums of section 2.2 of RFC 1950 (`DigestRuns.Replay`).
- **Bulk loops.** The two-lane loops, including the 32-wide block form that packs both lanes' hits into one
  word and takes them out by trailing zeros, report exactly the windows that meet the mask, ascending.
- **Polynomials over GF(2).** Division, product with exact overflow check, greatest common divisor, modular
  powers, and Ben-Or's test, proved equivalent to irreducibility for every polynomial that is not constant
  (through Fermat's theorem and the root bound in the residue field).
- **Chunking.** The lazily hashing, compacting core does, in every configuration, what a machine without buffer or
  queue does, and that machine's state and calls are functions of the parameters and of the schedule of Feed, Next
  and Finish alone (`ChunkRuns.Drive`, `ChunkSchedules.StateAfter`, `ChunkSchedules.CallsAfter`).
  `ChunkSpec.Naive` is a recursive chunker without batches at all, and the one chunking that follows the rule
  (`ChunkLaws.NaiveExactly`). The chunks handed out start the naive chunking of
  every continuation of the stream if and only if no call that handed one out was misled, that is, passed over a
  hit in range or cut at one before the chunk (`ChunkHistory.OnCourseExactly`), a condition that can be worked out
  from the schedule. In a sound configuration no call is misled, nor, before the stream is finished, is any that
  hands out a chunk in one without a forced cut, as by default (`ChunkHistory.UnboundedOnCourse`). Finishing and
  draining yields exactly the naive chunks under the same condition (`ChunkRuns.ChunkAll`,
  `ChunkWriting.PushAll`, with one of the four hashes underneath). With no configuration assumed sound, the default
  minimum 0 included, the pull side is right whenever a batch holds a window (`ChunkFeeds.PullAll`), and so is the
  documented write-and-drain loop of the push side as long as no write exceeds a batch
  (`ChunkWriting.WriteAndDrain`). Pushed or pulled, the chunks are then the same (`ChunkWriting.BothWays`,
  `ChunkWriting.BothLoops`). In every configuration, right or not, the chunks tile the stream
  (`ChunkHistory.HistoryTiles`).
- **Batches.** Whatever the feeds, the batches overlap by window - 1 bytes and their sums list every window
  position once, in order; pushed or pulled, the sums are the same (`BatchFeeds.SumsBothWays`). The batches are a
  function of the writes and calls, or of the input (`BatchFeeds.PushSums`, `BatchFeeds.PullSums`).

## Layout

| files | contents |
|---|---|
| Words, Window | 64-bit words as bounded naturals with their bit operations; the circular window |
| Lanes | the bulk loops, over any hash given by a `Kernel` (warm-up step, rolling step, reading) |
| Buzhash64, BuzhashRuns, Gearhash64, Adler32, RabinKarp64 | one hash each, and the collapse of buzhash on constant stretches |
| Polynomials, Residues, FiniteField, FieldRoots, PolOps | GF(2)[X] from the ring laws up to Ben-Or's test |
| Hashing, DigestRuns | the four hashes behind one face, and digests over sequences of moves |
| ChunkSpec, BoundaryQueue, ChunkFrontier, Chunking | the naive chunker, the boundary queue, the core without buffer and queue, the core |
| ChunkLaws, ChunkHistory, ChunkSchedules, ChunkRuns, StaleRuns | what the naive chunking guarantees; calls and when they mislead; what a schedule leads to; the core under any schedule; where a minimum of 0 goes wrong |
| ChunkFeeds, ChunkWriting | the pull and push sides of chunking |
| BatchRolling, BatchRuns, BatchFeeds | the batching core, its schedules, its push and pull sides |

`dafny verify dfyconfig.toml` checks all of it.

## Where the code and its documentation part

The model follows the code. These points are proved, not only noted.

- **Minimum 0, the default (chunker.go:278-281).** The loop that hashes ahead stops at the last recorded
  boundary even when that boundary has already been used. With a minimum of 0 the boundary the previous chunk
  ended at still passes the comparison, so the call hashes nothing: it passes over every hit ahead, cuts at
  max or asks for more, and at the end of the stream takes all that is left as one chunk
  (`ChunkRuns.StaleIgnoresHits`). This happens on the push side when more than one batch is written before Next is
  called, contrary to rollinghash.go:207-210. `StaleRuns.UsedUpQueue` is a concrete four-byte case, for every hash.
  `ChunkRuns.StaleExactly` gives the states in which the loop stops so, `ChunkRuns.AnswerIff` says exactly when one
  answer is still that of a chunker that sees every hit, `ChunkRuns.NeedMoreIff` when more input is asked for, and
  `ChunkRuns.Drive` lifts this to runs: the chunks are right if and only if no call that handed one out was misled,
  by the guards of the branches that cut (`ChunkHistory.Spoils`, `ChunkHistory.SpoilsExactly`).
  `Params.Sound` is a sufficient condition on the configuration alone.
- **Empty chunks and slow draining.** With a minimum of 0 and a finite maximum a chunk can come out empty: exactly
  when the byte before it is a hit that the call still has to hash (`ChunkRuns.EmptyChunkIff`). With a minimum of at
  least 1, or without a maximum, none ever does (`ChunkHistory.HistoryTiles`). One call for each byte left and one for
  the end drain the core (chunker.go:307-325), with one more for an empty chunk if an unhashed byte right before the
  chunk is in play, whenever the minimum is at least 1 or the maximum at least 2 (`ChunkRuns.Drain`). With
  minimum 0 and maximum 1 an empty chunk can follow every byte: `StaleRuns.SlowDrain` takes 2 n calls for n bytes, with
  n - 1 empty chunks.
- **A batch smaller than the window.** The core accepts it, but can then hash nothing until the frontier is far
  enough along (`Blocked`, part of the horizon in the contract of `ChunkerCore.Next`, so covered by the exact
  conditions). The batching core cannot work with it at all, and the model requires `window <= batchSize` there, as
  batchroller.go:16-17 does.
- **False before Close.** chunkwriter.go:95-103 and batchwriter.go:91-98 say that the accessors are empty once Next has
  returned false. Before Close they keep what they said, except that a batch's offset moves on; they are empty exactly
  when false is final (`ChunkWriting.ChunkWriter.Next`, `BatchRuns.BatchWriter.Next`). And rollinghash.go:168-170 says
  that false means too few bytes written for a window. It means too few bytes fed: up to a batch is held back, so a
  write of a window or more but less than a batch still gives false (`BatchFeeds.HeldWrite`). Calling Next until it
  says no leaves less than a window and a batch of what was written (`BatchFeeds.TakeBatches`).
- **Sum.** chunker.go:348-349 and 365-366 say that Sum is 0 only for a final chunk. With max below the window
  length the first chunk of any longer stream is forced before there is a full window and reports 0
  (`ChunkLaws.ForcedWithoutWindow`); `ChunkLaws.SumsExactly` says for every chunk what it reports. The reference in
  chunker_test.go:34 does not force the cut there; the code does.
- **Irreducible.** polynomials.go:225 says "iff". Constants pass although they are not irreducible:
  `PolOps.BenOrExactly` shows that the answer is right just when the degree is at least 1.
- **Constant stretches under buzhash.** buzhash64.go:8-9 says all-ones for odd multiples of 64. It is all-ones
  only if the byte's table word has an odd number of one bits, and zero otherwise: `BuzhashRuns.RunCollapse`.

## Model

| member | source | states |
|---|---|---|
| Window.RotationByReversal | internal/window/window.go:7-13 | reversing both parts of a buffer and then the whole exchanges the parts |
| Window.Reverse | internal/window/window.go:15-20 | the slice is reversed in place and nothing else changes |
| Window.MoveLeft | internal/window/window.go:7-13 | in place, the buffer becomes its rotation with the oldest byte first |
| Window.Write | internal/window/window.go:22-34 | the window goes to the writer oldest byte first, all of it unless the first call fails; the error, and a count that adds up the calls made |
| Window.Slide | buzhash64/buzhash64.go:152-157 | overwriting the oldest slot and stepping round drops the oldest byte of the logical window and appends the new one |
| Lanes.HitsExact | rollinghash.go:236-242 | the reference list of hits holds exactly the positions whose sum meets the mask, strictly ascending |
| Lanes.StepAt | buzhash64/buzhash64.go:223-230 | one rolling step takes the accumulator of one window to that of the next |
| Lanes.WarmUp | buzhash64/buzhash64.go:197-201 | absorbing a window's bytes gives its accumulator and its checksum |
| Lanes.BatchRoll | adler32/adler32.go:129-198 | two lanes fill dst with the checksum of every window, each in its place; nothing is written when there is no window |
| Lanes.Mark | rabinkarp64/rabinkarp64.go:344-347 | the masked test extends a lane's hits by one position, within the buffer |
| Lanes.RunLane | rabinkarp64/rabinkarp64.go:389-404 | a clean-up loop finishes one lane's hits |
| Lanes.FinishLanes | buzhash64/buzhash64.go:347-377 | from any joint position on, both lanes together hold all hits in order |
| Lanes.BatchBoundaries | rabinkarp64/rabinkarp64.go:329-406 | a[:na] followed by b[:nb] is the reference list of hits, all writes in bounds |
| Lanes.PackStep | buzhash64/buzhash64.go:316-333 | flagging one step of both lanes extends what the packed word records by one position per lane |
| Lanes.RunBlock | buzhash64/buzhash64.go:315-333 | after a block the low half of the word flags lane A's hits and the high half lane B's, and both accumulators stand 32 windows on |
| Lanes.SplitFlags | buzhash64/buzhash64.go:337-341 | masking the low half and shifting by 32 separates the lanes' flags |
| Lanes.NextFlag | buzhash64/buzhash64.go:337-340 | the trailing zeros of the flags are the distance to the next hit, and clearing the lowest bit leaves the later ones |
| Lanes.Extract | buzhash64/buzhash64.go:337-344 | extraction appends exactly the block's hits, ascending, within the buffer |
| Lanes.JointBlock | buzhash64/buzhash64.go:308-345 | one block moves both lanes 32 positions on with their hits complete |
| Lanes.BatchBoundariesInBlocks | buzhash64/buzhash64.go:251-378 | the block form reports the same list as the naive scan, for any data, window and mask |
| Buzhash.RotLPeriod | buzhash64/buzhash64.go:120-123 | rotating by the window length modulo 64 is rotating by the window length |
| Buzhash.HashSnoc | buzhash64/buzhash64.go:115-119 | no bytes hash to 0; rotate and add a byte's word: the hash of the window with that byte appended |
| Buzhash.HashRolls | buzhash64/buzhash64.go:138-160 | rotate, cancel the leaving byte's rotated word, add the entering one's: the hash of the slid window, for every window length |
| Buzhash.KernelRolls | buzhash64/buzhash64.go:177-184 | the bulk step with the table rotated by window modulo 64 rolls windows of that length |
| Buzhash.Rotate | buzhash64/buzhash64.go:120-123 | the cached table holds every word rotated |
| Buzhash.Buzhash64.constructor | buzhash64/buzhash64.go:80-88 | an empty window and its hash |
| Buzhash.Buzhash64.Reset | buzhash64/buzhash64.go:52-57 | back to the empty window |
| Buzhash.Buzhash64.Write | buzhash64/buzhash64.go:101-125 | the logical window grows by the data and the digest holds its hash |
| Buzhash.Buzhash64.Sum64 | buzhash64/buzhash64.go:127-130 | the cyclic polynomial of the logical window |
| Buzhash.Buzhash64.Roll | buzhash64/buzhash64.go:138-160 | the logical window slides by one byte and the digest keeps holding its hash |
| Buzhash.Buzhash64.BatchRoll | buzhash64/buzhash64.go:162-240 | dst[i] is the hash of data[i:i+w] |
| Buzhash.Buzhash64.BatchBoundaries | buzhash64/buzhash64.go:242-378 | the two buffers together list the windows whose hash meets the mask |
| BuzhashRuns.HashConcat | buzhash64/buzhash64.go:4-13 | the hash of a concatenation from the hashes of its parts |
| BuzhashRuns.TurnInvariant | buzhash64/buzhash64.go:5-9 | 64 equal bytes hash to a word that rotation leaves alone |
| BuzhashRuns.RunCollapse | buzhash64/buzhash64.go:4-13 | on equal bytes, 64 m of them hash to all-ones exactly when m and the number of ones of the byte's word are odd, else to 0 |
| Gearhash.GearSnoc | gearhash64/gearhash64.go:101-104 | appending a byte doubles the unwrapped sum and adds the byte's word |
| Gearhash.HashSnoc | gearhash64/gearhash64.go:101-104 | no bytes hash to 0; shift, add a byte's word and wrap: the hash of the window with that byte appended |
| Gearhash.ShiftedOut | gearhash64/gearhash64.go:105-113 | the cached word is the leaving byte's contribution for every window length, zero from 64 on |
| Gearhash.HashRolls | gearhash64/gearhash64.go:4-11 | shift, subtract, add in wrapping arithmetic gives the hash of the slid window |
| Gearhash.Last64 | gearhash64/gearhash64.go:9-11 | with 64 bytes or more only the last 64 count |
| Gearhash.KernelRolls | gearhash64/gearhash64.go:154-162 | the bulk step rolls windows of the length its table was made for |
| Gearhash.Shift | gearhash64/gearhash64.go:107-113 | the cached table holds every word shifted by the window length |
| Gearhash.GearHash64.constructor | gearhash64/gearhash64.go:62-67 | an empty window and its hash |
| Gearhash.GearHash64.Reset | gearhash64/gearhash64.go:69-74 | back to the empty window |
| Gearhash.GearHash64.Write | gearhash64/gearhash64.go:87-115 | the logical window grows by the data and the digest holds its hash |
| Gearhash.GearHash64.Sum64 | gearhash64/gearhash64.go:117-118 | the sum of shifted words of the logical window modulo 2^64 |
| Gearhash.GearHash64.Roll | gearhash64/gearhash64.go:126-140 | the logical window slides by one byte and the digest keeps holding its hash |
| Gearhash.GearHash64.BatchRoll | gearhash64/gearhash64.go:142-208 | dst[i] is the hash of data[i:i+w] |
| Gearhash.GearHash64.BatchBoundaries | gearhash64/gearhash64.go:210-354 | the two buffers together list the windows whose hash meets the mask |
| Adler.SlideSums | adler32/adler32.go:117-118 | how both sums of section 2.2 of RFC 1950 change when the window slides |
| Adler.Slide | adler32/adler32.go:117-118 | the update in 32-bit arithmetic never wraps and computes the residues meant |
| Adler.PackedSum | adler32/adler32.go:88-91 | shifting and combining packs the two residues side by side |
| Adler.HashHalves | adler32/adler32.go:88-91 | the checksum holds s2 modulo 65521 in the upper half and s1 modulo 65521 in the lower |
| Adler.AbsorbHolds | adler32/adler32.go:143-146 | the warm-up step keeps both residues those of the bytes absorbed |
| Adler.SlideHolds | adler32/adler32.go:99-119 | the rolling update takes the residues of a window to those of the slid window |
| Adler.KernelRolls | adler32/adler32.go:171-184 | the bulk step rolls windows of the length its residue stands for |
| Adler.RollsExactly | adler32/adler32.go:84 | rolling with the length cut to 32 bits is right if and only if the cut leaves its residue, as it does below 2^32 |
| Adler.CountsExactly | adler32/adler32.go:117-118 | a byte times the length as kept leaves the residue it should if and only if the byte is zero or the cut length keeps its residue, 65521 being prime |
| Adler.Vanilla | adler32/adler32.go:79-83 | the whole-window checksum follows section 2.2 of RFC 1950 |
| Adler.Adler32.constructor | adler32/adler32.go:43-53 | an empty window and its checksum |
| Adler.Adler32.Reset | adler32/adler32.go:33-41 | back to the empty window |
| Adler.Adler32.Write | adler32/adler32.go:66-86 | the logical window grows by the data and the digest holds its checksum, whatever it held before |
| Adler.Adler32.Sum64 | adler32/adler32.go:88-91 | s2 modulo 65521 of the logical window in the upper half, s1 modulo 65521 in the lower, as section 2.2 of RFC 1950 has them |
| Adler.SlidesRight | adler32/adler32.go:117-118 | for any window length one update is right if and only if the leaving byte is zero or cutting the length to 32 bits left its residue |
| Adler.Adler32.Roll | adler32/adler32.go:99-119 | the logical window slides by one byte, and the digest keeps holding its checksum if and only if the leaving byte is zero or the cut length keeps its residue, as it always does below 2^32 |
| Adler.Adler32.BatchRoll | adler32/adler32.go:121-198 | dst[i] is the checksum of data[i:i+w] |
| Adler.Adler32.BatchBoundaries | adler32/adler32.go:200-288 | the two buffers together list the windows whose checksum meets the mask |
| Polynomials.DegMul | rabinkarp64/polynomials.go:50-60 | degrees add under multiplication: no zero divisors |
| Polynomials.DivModExact | rabinkarp64/polynomials.go:120-147 | x = q d + r with the degree of r below that of d |
| Polynomials.DivModUnique | rabinkarp64/polynomials.go:120-147 | there is only one such quotient and remainder |
| Residues.GCDBezout | rabinkarp64/polynomials.go:208-223 | the greatest common divisor divides both arguments and is a combination of them |
| Residues.GCDDivisors | rabinkarp64/polynomials.go:208-223 | its divisors are exactly the common divisors |
| FiniteField.Prime | rabinkarp64/polynomials.go:225-238 | irreducible polynomials are prime |
| FiniteField.Fermat | rabinkarp64/polynomials.go:225-238 | modulo an irreducible polynomial of degree d everything is its own 2^d-th power |
| FieldRoots.RootBound | rabinkarp64/polynomials.go:225-238 | over the residue field a polynomial has no more roots than its degree |
| FieldRoots.OwnPower | rabinkarp64/polynomials.go:225-238 | modulo an irreducible polynomial, X is its own 2^i-th power for i the degree and for no smaller i |
| PolOps.MulWord | rabinkarp64/polynomials.go:62-75 | schoolbook multiplication is the low word of the product |
| PolOps.DivMod | rabinkarp64/polynomials.go:120-147 | long division is the quotient and remainder; it panics exactly for nonzero by zero |
| PolOps.TruncatedDivision | rabinkarp64/polynomials.go:57-59 | dividing the truncated product gives the factor back exactly when nothing was cut off |
| PolOps.MulOverflows | rabinkarp64/polynomials.go:50-60 | overflow is reported exactly when the degrees of two nonzero factors add to more than 63 |
| PolOps.MulPol | rabinkarp64/polynomials.go:77-84 | the product, or a panic exactly on overflow |
| PolOps.MulMod | rabinkarp64/polynomials.go:240-258 | the residue of the full product, never formed; when it panics |
| PolOps.Qp | rabinkarp64/polynomials.go:260-277 | X^(2^p) + X modulo g after p squarings, without a panic for any nonzero g; 0 from p = 63 on, where the shift leaves the int |
| PolOps.Irreducible | rabinkarp64/polynomials.go:225-238 | never panics, and answers Ben-Or's condition over all i up to half the degree |
| PolOps.BenOrIsIrreducible | rabinkarp64/polynomials.go:225-227 | for every polynomial that is not constant that condition is irreducibility |
| PolOps.BenOrExactly | rabinkarp64/polynomials.go:225-227 | the answer is right if and only if the polynomial is not constant |
| RabinKarp.PushMod | rabinkarp64/rabinkarp64.go:200-204 | pushing a byte onto a remainder and reducing is reducing the longer message |
| RabinKarp.HashSnoc | rabinkarp64/rabinkarp64.go:200-204 | no bytes have fingerprint 0; another byte multiplies by X^8, adds the byte and reduces |
| RabinKarp.BuildTables | rabinkarp64/rabinkarp64.go:98-138 | out holds every byte followed by windowsize - 1 zero bytes, reduced; mod joins b X^k reduced with b X^k |
| RabinKarp.TableReduces | rabinkarp64/rabinkarp64.go:124-135 | one exclusive or with the entry of the top bits reduces a value eight degrees too high |
| RabinKarp.LeaveOut | rabinkarp64/rabinkarp64.go:100-110 | adding the leaving byte's entry leaves the remainder of the other bytes |
| RabinKarp.RollIsHash | rabinkarp64/rabinkarp64.go:239-248 | one roll through both tables turns a window's remainder into the next window's |
| RabinKarp.KernelRolls | rabinkarp64/rabinkarp64.go:299-311 | the bulk step rolls windows of the size its tables were built for |
| RabinKarp.RabinPolSuits | rabinkarp64/rabinkarp64.go:143-154 | the polynomials admitted are those of degree 8 to 56 |
| RabinKarp.TableCache.TablesFor | rabinkarp64/rabinkarp64.go:75-92 | the tables of its key, cached or built; every cached entry stays right |
| RabinKarp.RabinKarp64.NewFromPol | rabinkarp64/rabinkarp64.go:140-154 | an empty window and its fingerprint |
| RabinKarp.RabinKarp64.Reset | rabinkarp64/rabinkarp64.go:166-173 | back to the empty window with tables for it |
| RabinKarp.RabinKarp64.Write | rabinkarp64/rabinkarp64.go:186-209 | the logical window grows by the data; value and tables fit it |
| RabinKarp.RabinKarp64.Sum64 | rabinkarp64/rabinkarp64.go:211-214 | the remainder of the logical window, read as a polynomial, under division by the digest's |
| RabinKarp.RabinKarp64.Roll | rabinkarp64/rabinkarp64.go:222-249 | the logical window slides by one byte and the value stays its remainder, so below the polynomial's degree |
| RabinKarp.RabinKarp64.BatchRoll | rabinkarp64/rabinkarp64.go:251-323 | dst[i] is the fingerprint of data[i:i+w] |
| RabinKarp.RabinKarp64.BatchBoundaries | rabinkarp64/rabinkarp64.go:325-406 | the two buffers together list the windows whose fingerprint meets the mask |
| Hashing.New | buzhash64/buzhash64.go:74-88 | a digest of the wanted kind with an empty window |
| Hashing.Checksum | chunker.go:355-358 | the checksum of bytes written to a digest that starts afresh |
| Hashing.Hash.Sum | chunker.go:89-105 | the checksum of the digest's window under the digest's own hash |
| Hashing.Hash.BatchRoll | rollinghash.go:229-234 | what a batch roller asks of any hash, met by all four; the digest's window stays |
| Hashing.Hash.BatchBoundaries | rollinghash.go:236-242 | what a chunker asks of any hash, met by all four; the digest's window stays |
| DigestRuns.Replay | rollinghash.go:62-72 | after any sequence of writes, rolls and resets the digest reports the checksum of the logical window |
| DigestRuns.BatchIsRolling | buzhash64/buzhash64.go:162-169 | the bulk sums are those of writing the first window and rolling on byte by byte |
| ChunkSpec.ScanSkips | chunker.go:287-305 | bytes that neither hit in range nor reach max do not end a chunk |
| BoundaryQueue.QueueSkipped | chunker.go:196-205 | moving the frontier over bytes too close to the start loses no boundary the chunk would accept |
| BoundaryQueue.QueueDropped | chunker.go:153-157 | dropping used boundaries keeps the pending queue |
| BoundaryQueue.QueueHashed | chunker.go:239-246 | appending the hits between the old frontier and the new keeps the queue complete and ascending |
| BoundaryQueue.FirstBound | chunker.go:287-297 | the first pending boundary in range is where the byte-by-byte scan cuts |
| BoundaryQueue.NoBound | chunker.go:298-305 | with none in range and nothing left to see, the scan cuts at max or not at all |
| BoundaryQueue.QueueCut | chunker.go:301-305 | after a cut the queue is that of the next chunk |
| Chunking.HitsOfSlice | chunker.go:239-245 | the reported positions, shifted, are the hits of the stream the slice covers |
| Chunking.Forwarded | chunker.go:222-246 | with window - 1 bytes of lead-in, hashing a slice adds exactly the hits from the frontier to its end |
| Chunking.Selected | chunker.go:287-305 | what the queue selects after hashing ahead is what the byte-by-byte scan finds up to the horizon |
| Chunking.StaysSynced | chunker.go:278-285 | with at most a batch unhashed, hashing ahead reaches all there is |
| Chunking.ChunkerCore.CandidateMeans | chunker.go:278-285 | in every reachable state the queue's part in when and where hashing ahead stops comes down to the stream, the frontier and whether the last chunk ended at the last boundary |
| Chunking.ChunkerCore.CallMeans | chunker.go:250-285 | in every reachable state what the next call scans and sees is a function of the outline of the state, without buffer and queue |
| Chunking.ChunkerCore.PendingExactly | chunker.go:57-66 | in every reachable state the queue holds, far enough from the start and up to the frontier, exactly the hits |
| Chunking.ChunkerCore.constructor | chunker.go:80-110 | an empty core that meets the invariant |
| Chunking.ChunkerCore.Reset | chunker.go:112-129 | the state of a new core, current chunk cleared |
| Chunking.ChunkerCore.Finish | chunker.go:131-133 | only the end of input is recorded |
| Chunking.ChunkerCore.SkipPreMin | chunker.go:196-205 | the frontier moves to the end of the pre-min region and the invariant is kept |
| Chunking.ChunkerCore.Compact | chunker.go:135-158 | the buffer keeps exactly the bytes from window - 1 before the earlier of start and frontier; the queue keeps what is pending |
| Chunking.ChunkerCore.Feed | chunker.go:160-167 | the bytes join the stream, the frontier passes the pre-min region and used boundaries go; drained before, the buffer stays within max + window - 1 + k bytes |
| Chunking.ChunkerCore.FindBoundaries | chunker.go:232-239 | the hit buffers, grown as needed, list the slice's hits |
| Chunking.ChunkerCore.Record | chunker.go:240-245 | both lanes' positions are appended in order as stream offsets |
| Chunking.ChunkerCore.HashSlice | chunker.go:222-247 | a slice is hashed, each window end once and none before the frontier |
| Chunking.ChunkerCore.HashForward | chunker.go:207-248 | progress by up to a batch, or none exactly when no further window can be formed |
| Chunking.ChunkerCore.HashAhead | chunker.go:271-285 | batches are hashed until a candidate is queued, max is passed or no window is left |
| Chunking.ChunkerCore.SumAt | chunker.go:344-359 | the checksum of the window ending at the cut, also across chunks; 0 exactly when the stream holds no full window there |
| Chunking.ChunkerCore.Emit | chunker.go:330-342 | offset, bytes, sum and kind of the chunk, and the next start |
| Chunking.ChunkerCore.Select | chunker.go:287-305 | the first boundary in range, the forced cut, or neither, as the byte-by-byte scan decides |
| Chunking.ChunkerCore.Decide | chunker.go:263-305 | the decision equals that of the byte-by-byte scan up to the horizon |
| Chunking.ChunkerCore.Flush | chunker.go:307-325 | after Finish the remaining bytes are the final chunk, none if there are none |
| Chunking.ChunkerCore.Next | chunker.go:250-328 | the answer and the whole new state are those of the abstract machine; its outline is a function of the outline before; what the accessors then say |
| ChunkLaws.ScanMeans | chunker.go:381-385 | the scan cuts at the first hit in [min, max], else at max, else not at all |
| ChunkLaws.NeedMoreExactly | chunker.go:250-253 | the machine that sees every hit asks for more exactly when no hit is in range and fewer than max bytes follow the start |
| ChunkLaws.ScanExtends | rollinghash.go:207-210 | more bytes never change a cut already made |
| ChunkLaws.NaiveTiles | rollinghash.go:110-135 | chunks are non-empty, contiguous, within their limits, and join to the stream |
| ChunkLaws.SumsExactly | chunker.go:344-359 | every naive chunk reports the checksum of the window that ends with it, 0 exactly where there is no full window |
| ChunkLaws.NaiveExactly | chunker.go:381-385 | a list of chunks is the naive chunking if and only if each ends at the first hit in [min, max], failing that at max or at the end, with its bytes, kind and sum, one after the other to the end |
| ChunkLaws.ForcedWithoutWindow | chunker.go:301-305 | with max below the window length a chunk that is not the last reports 0 |
| ChunkLaws.CommittedStep | chunker.go:250-328 | every step of the machine that sees every hit keeps the emitted chunks settled for all continuations of the stream |
| ChunkLaws.OnlinePrefix | rollinghash.go:207-210 | on the machine that sees every hit, chunks emitted at any point start the chunking of whatever the stream turns out to be |
| ChunkDrain.RunFed | chunker.go:160-167 | a schedule's stream is the bytes it fed before finishing |
| ChunkDrain.NextProgresses | chunker.go:307-325 | on the machine that sees every hit, a call after Finish emits at least a byte or ends |
| ChunkDrain.Drained | chunker.go:307-325 | on the machine that sees every hit, one call per remaining byte and one more suffice after Finish |
| ChunkDrain.ScheduleIndependent | chunker.go:25-30 | on the machine that sees every hit, every schedule, finished and drained, emits the naive chunks of the bytes fed |
| ChunkHistory.DecisionMeans | chunker.go:278-305 | a call decides as one that sees every hit if and only if it is not misled |
| ChunkHistory.MisledMeans | chunker.go:278-305 | a misled call cuts before the chunk, or at max or not at all where there is a hit in range |
| ChunkHistory.SpoilsExactly | chunker.go:287-325 | the guards under which a misled call hands out a chunk: an early hit in sight, max reached, or the end of the stream |
| ChunkHistory.AnswerExactly | chunker.go:278-325 | a call ends in the state of one that sees every hit if and only if it is not misled |
| ChunkHistory.CallSpoils | chunker.go:278-325 | a misled call that hands out a chunk leaves the chunking of every continuation of the stream |
| ChunkHistory.HistoryMeans | chunker.go:250-328 | the chunks stay settled until a call spoils them, and are right for no continuation after that |
| ChunkHistory.OnCourseExactly | chunker.go:250-328 | for every run in every configuration the chunks are right if and only if no call that handed one out was misled |
| ChunkHistory.UnboundedOnCourse | rollinghash.go:207-210 | without a forced cut, as by default, chunks handed out before the end of the stream are settled, for every minimum, batch and schedule |
| ChunkHistory.CutSpan | chunker.go:263-305 | a cut lies within the limits its kind promises, whatever was seen |
| ChunkHistory.HistoryTiles | rollinghash.go:110-135 | in every configuration the chunks lie back to back within their limits and join to the stream up to the next start; none is empty with a minimum or without a forced cut |
| ChunkSchedules.StateFed | chunker.go:160-167 | what a schedule has fed before finishing is the stream of the state it leads to |
| ChunkSchedules.SettledStays | chunker.go:250-261 | once there is nothing more, further calls change nothing and spoil nothing |
| ChunkRuns.CorePlaced | chunker.go:57-66 | every call the core can make is one these results speak of |
| ChunkRuns.AnswerIff | chunker.go:278-285 | for every reachable state that is not done, exactly when the answer is that of a call that sees every hit |
| ChunkRuns.SoundAnswer | chunker.go:278-285 | in a sound configuration no call is misled |
| ChunkRuns.StaleExactly | chunker.go:278-281 | the states in which the loop stops at a used boundary: minimum 0, right after a cut at the last one recorded |
| ChunkRuns.StaleIgnoresHits | chunker.go:278-281 | in such a state the call passes over every hit ahead |
| ChunkRuns.SyncedAnswer | chunker.go:401-406 | with at most one batch unhashed no call is misled, for every minimum |
| ChunkRuns.NeedMoreIff | chunker.go:250-253 | for every reachable state, exactly when more input is asked for |
| ChunkRuns.EmptyChunkIff | chunker.go:287-297 | for every reachable state, exactly when the chunk handed out is empty |
| ChunkRuns.FeedNext | chunker.go:160-167 | bytes, the last or not, and what they leave unchanged |
| ChunkRuns.CallNext | chunker.go:250-328 | a call of next and its place in the history |
| ChunkRuns.FinishNext | chunker.go:131-133 | the end of the stream and its place in schedule and history |
| ChunkRuns.ScheduledMeans | chunker.go:250-285 | the next call of a core is the one its schedule leads to, and its stream what that fed |
| ChunkRuns.Perform | chunker.go:250-328 | one operation on the core is one step of the machine and one more of its schedule, in every configuration |
| ChunkRuns.Drive | chunker.go:25-30 | any schedule in any configuration leaves the core in the state, by the calls, that are functions of it; the chunks tile the stream, and start the naive chunking of every continuation if and only if no call that handed one out was misled: none in a sound configuration, nor before Finish without a forced cut |
| ChunkRuns.Drain | chunker.go:307-325 | after Finish one call per byte left and one more reach the end, with one more if a byte before the chunk is in play; up to two per byte only for minimum 0 and maximum 1 |
| ChunkRuns.ChunkAll | chunker.go:381-385 | from feeds to chunks, finished and drained: the chunks are a function of the schedule, tile the stream, and are the naive ones if and only if no call of it that handed one out was misled |
| ChunkRuns.FeedDrained | chunker.go:135-167 | drained before each feed of at most k bytes, the buffer stays within max + window - 1 + k however long the stream |
| StaleRuns.UsedUpQueue | chunker.go:278-281 | a four-byte stream on which a minimum of 0 misses a boundary and emits an empty chunk |
| StaleRuns.SlowDrain | chunker.go:278-325 | streams of any length n that take 2 n calls to drain and hand out n - 1 empty chunks |
| ChunkFeeds.Chunker.constructor | chunker.go:445-460 | a chunker over an input, nothing emitted |
| ChunkFeeds.Chunker.Reset | chunker.go:462-466 | a new input from the start |
| ChunkFeeds.Chunker.FillCore | chunker.go:489-516 | a block moves from the reader to the core; false exactly once the input is finished |
| ChunkFeeds.Chunker.Next | chunker.go:468-487 | the chunks so far start the naive chunking of the input, and are all of it once false is returned, if and only if no call spoiled them; with a batch that holds a window none does, nor before the end is known without a forced cut; a block is read exactly when the core asks |
| ChunkFeeds.PulledExactly | chunker.go:468-516 | step by step: a block of the input is fed exactly when the call before asked for more, the end exactly after a block that told it, and calls otherwise |
| ChunkFeeds.PullAll | chunker.go:381-395 | the documented loop puts the core through a schedule that is a function of the input, hands out the chunks that accounts for, and they are the naive ones if and only if no call of it spoils them, always, for every minimum, if a batch holds a window |
| ChunkWriting.ChunkWriter.constructor | chunkwriter.go:27-38 | an open writer with nothing written |
| ChunkWriting.ChunkWriter.Write | chunkwriter.go:40-76 | whole batches of what was pending and is written go to the core, less than one stays pending; ErrClosed after Close |
| ChunkWriting.ChunkWriter.SupplyBatches | chunkwriter.go:68-74 | whole batches go straight to the core, the remainder is held back |
| ChunkWriting.BatchesExactly | chunkwriter.go:68-75 | every batch is of the batch size, less than one is held back, and together they are the bytes given |
| ChunkWriting.PushedExactly | chunkwriter.go:40-89 | for any writes, calls and Close: what the core was fed and what is held back are the bytes written before Close, nothing held back after it |
| ChunkWriting.ChunkWriter.Close | chunkwriter.go:78-89 | all bytes written reach the core and the stream ends; nothing else changes |
| ChunkWriting.ChunkWriter.Next | chunkwriter.go:91-93 | in every configuration: a prefix of the chunking of every continuation of what is written, and after Close all of it once false is returned, if and only if no call spoiled the chunks; none does before Close without a forced cut, as by default; the chunks tile the stream; the accessors are cleared exactly when false is final |
| ChunkWriting.ChunkWriter.Reset | chunkwriter.go:119-125 | an open writer with nothing written |
| ChunkWriting.Collect | rollinghash.go:193-205 | calling Next until it says no ends, and leaves the core up to date |
| ChunkWriting.PushAll | rollinghash.go:193-213 | writes, calls of Next and Close in any order: the chunks are a function of them, tile what was written, and are the naive ones if and only if no call of the resulting schedule spoils them; in a sound configuration none does |
| ChunkWriting.WriteAndDrain | rollinghash.go:193-205 | the documented loop yields the naive chunks if and only if no call spoiled them, so always, for every minimum, if a batch holds a window and no write exceeds a batch, or in a sound configuration |
| ChunkWriting.BothWays | chunker.go:25-30 | pushed in any order or pulled, the same bytes give the same chunks if and only if no pushed call spoils them, in a sound configuration or with a batch that holds a window; either way they join to the input |
| ChunkWriting.BothLoops | chunker.go:25-30 | pushed by the documented loop or pulled, the same bytes give the same chunks for every minimum, in a sound configuration or when a batch holds a window and no write exceeds one; either way they join to the input |
| BatchRolling.BatchRollerCore.constructor | batchroller.go:51-61 | an empty core |
| BatchRolling.BatchRollerCore.Reset | batchroller.go:63-76 | the state of a new core |
| BatchRolling.BatchRollerCore.Finish | batchroller.go:78-80 | only the end of input is recorded |
| BatchRolling.BatchRollerCore.Feed | batchroller.go:82-85 | the bytes join the stream |
| BatchRolling.BatchRollerCore.DropPrevious | batchroller.go:122-137 | the previous batch is dropped but for its last window - 1 bytes |
| BatchRolling.BatchRollerCore.Emit | batchroller.go:150-168 | the next batch: as many bytes as there are, up to a batch, and the checksum of each of their windows |
| BatchRolling.BatchRollerCore.Load | batchroller.go:150-157 | the bytes of the batch and the checksum of each of their windows |
| BatchRolling.BatchRollerCore.Next | batchroller.go:111-169 | the answer and the whole new state are those of the abstract machine: a batch exactly when a window is there, its offset, bytes and sums, when more is asked for, and what the accessors then say |
| BatchRolling.SumsOfSlice | rollinghash.go:87-89 | the sums of a slice are a slice of the stream's sums |
| BatchRolling.ChainCovers | rollinghash.go:87-89 | chained batches list every window position once, in order |
| BatchRuns.RollOkStep | batchroller.go:111-169 | every step keeps the batches chained: overlap window - 1, sums of their own windows |
| BatchRuns.RollDrained | batchroller.go:139-163 | after Finish one call per window left and one more suffice |
| BatchRuns.BatchesCoverStream | rollinghash.go:87-89 | every schedule, finished and drained, yields the checksum of every window of the bytes fed |
| BatchRuns.RollAll | batchroller.go:187-194 | from feeds to batches: a function of the schedule, chained, with the sums of all windows |
| BatchFeeds.BatchRoller.constructor | batchroller.go:202-216 | a roller over an input, nothing emitted |
| BatchFeeds.BatchRoller.Reset | batchroller.go:218-224 | a new input from the start |
| BatchFeeds.BatchRoller.FillCore | batchroller.go:247-274 | a block moves from the reader to the core; false exactly once the input is finished |
| BatchFeeds.BatchRoller.Next | batchroller.go:226-245 | true exactly when a window is left; a block is read only when the bytes at hand hold none, and none beyond the first that completes one; the sums so far start those of the input and are all of them once false is returned |
| BatchFeeds.PullSums | batchroller.go:187-194 | the pulled batches are a function of the input, chained, with the sums of every window of it |
| BatchFeeds.PushSums | rollinghash.go:156-166 | writes, calls of Next and Close in any order: the batches are a function of them, chained, with the sums of every window of what was written |
| BatchFeeds.LoopSums | rollinghash.go:156-166 | the documented loop yields the sums of every window of what was written |
| BatchFeeds.TakeBatches | rollinghash.go:168-170 | calling Next until it says no ends, and leaves less than a window and a batch of what was written before Close, nothing after it |
| BatchFeeds.HeldWrite | batchwriter.go:66-72 | a first write of a window or more but less than a batch gives no batch yet |
| BatchFeeds.SumsBothWays | batchroller.go:28-31 | pushed or pulled, the same bytes give the same sums |
| BatchRuns.BatchWriter.constructor | batchwriter.go:28-34 | an open writer with nothing written |
| BatchRuns.BatchWriter.Write | batchwriter.go:36-72 | whole batches of what was pending and is written go to the core, less than one stays pending; ErrClosed after Close |
| BatchRuns.BatchWriter.Close | batchwriter.go:74-85 | all bytes written reach the core and the stream ends; nothing else changes |
| BatchRuns.BatchWriter.Next | batchwriter.go:87-89 | true exactly when the bytes fed hold a window not yet rolled; the sums so far start those of the stream; after Close, false means every window's sum is out and the accessors are cleared |
| BatchRuns.BatchWriter.Reset | batchwriter.go:110-116 | an open writer with nothing written |

## Left out

- Readers and writers as such: a reader is the bytes it has yet to deliver and whether it reports the end with the last of them or afterwards; read errors and zero-byte reads are not modelled.
- Slice capacity, reuse of backing arrays and aliasing of Bytes() with the buffer: `cbuf`, `bounds`, `pending` and `buf` are sequences, so readTail followed by commitTail is a feed of the bytes read. The hit buffers, dst and the digests' windows are arrays updated in place.
- The shared digest: each window sum, BatchRoll and BatchBoundaries uses a digest made for the call, where the source resets one it keeps.
- A negative minimum, with which a cut could lie before the start of the chunk and the slice panics, and stream offsets that do not fit an int (`Params.Fits`).
- Chunking.ChunkerCore.constructor: a batch size of 0 or above 2^31 and a maximum of 0 are excluded, and so they are for ChunkFeeds.Chunker.constructor and ChunkWriting.ChunkWriter.constructor. With batch size 0 the core never hashes, above 2^31 the int32 positions within a batch overflow, and with maximum 0 every call hands out an empty chunk and there is no end.
- Adler.Adler32.BatchRoll: window lengths whose residue changes when they are cut to 32 bits (2^32 bytes and more) are excluded, and so they are for BatchBoundaries and the machines above; Adler.RollsExactly shows that rolling is wrong for them.
- RabinKarp.BuildTables: tables, and so digests (RabinKarp.RabinKarp64.NewFromPol), for polynomials of degree below 8 or above 56 are excluded, because a remainder shifted by a byte, or the shift by the degree less 8, no longer fits; irreducibility of the digest's polynomial is not needed.
- ChunkFeeds.Chunker.FillCore: read errors and zero-byte reads are not modelled; a block is read whole. The same goes for BatchFeeds.BatchRoller.FillCore.
- Four copies of the lane loops: they are written once over a kernel, with the block form for buzhash64 and gearhash64 and the plain form for rabinkarp64 and adler32. The single-output branch holds a loop that never has a step to do and is a return here.
- The mutex of the table cache, and its sharing between digests: a cache is a parameter of the digest.
- The internals of the standard library's adler32, taken by the formula of section 2.2 of RFC 1950.
- bozo32, bozo64 and buzhash32, the same shape with easier arithmetic.
- Generated tables and polynomials (GenerateHashes, RandomPolynomial, DerivePolynomial), and all statistical claims: tables are arbitrary.
- Size, BlockSize, Sum as bytes, String, Expand, rollstat, benchmarks.
