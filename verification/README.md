# Verified models of zlib and libev

This project models the algorithms at the heart of two libraries vendored by the
repository, zlib 1.2.7 and libev, and proves what they are for.

**deflate** (`Bits`, `BitStream`, `HashKey`, `HashChain`, `Tokens`, `Choice`, `SymbolBuffer`,
`PendingOutput`, `MatchFinder`, `Deflate`, `BlockReader`, `DeflateStream`, `Checksum`). The sliding window, the hash
chains that slide with it, lazy evaluation, the five block strategies and the resumable
`deflate()` are classes with the fields of `deflate_state`. Ghost fields relate the window
to the whole input by absolute position. The encoder of trees.c is an arbitrary function
from a block to the bits and bytes it sends. The main result is `DeflateStream.Run` with
`RoundTrip`: for any input, chunking, output space and sequence of flush modes, the caller
who sees `Z_STREAM_END` holds exactly the header, the code of a list of blocks in order, and
the trailer with the checksum of the input; and the blocks decode to the input, however each
of them is encoded; so any reader that undoes the encoder block by block gets the input
(`ReaderGetsInput`). `HeaderSays`, `ZlibSays` and `GzipSays` spell out header and trailer byte by
byte. Behind every full flush a reader may start afresh and gets the input from there on
(`Restart`). `FinishStream` adds that asking for the end reaches it. And every token of a run has
a reason (`EveryTokenHasReason`): a log kept beside the run has one choice for each, with what
there was to be seen at its position, and `NothingMissed` says what that means: no literal where an
earlier string within reach continues, no match where one continues longer or, as long, closer.
Behind them stand the agreement of `head`/`prev` with a simple index, and the soundness and
optimality of `longest_match`.

**Checksums** (`Crc`, `Adler`). The table-driven, sliced and byte-swapped CRC-32 loops all
compute the bitwise shift register of section 8 of RFC 1952; `crc32_combine` is proved
through GF(2) matrices. `adler32` with one modulo per NMAX bytes is the per-byte sum of
RFC 1950, and the division-free macros are remainders over their whole ranges.

**libev** (`Wakeup`, `Heap`, `PendingQueue`, `Timers`, `FdChange`). The wake-up handshake is
a state machine over the atomic steps of any number of senders and the loop, interleaved
freely; no wake-up is ever lost, every send is delivered, nothing is fed that has not been sent,
and the loop goes back to sleep. The timer heap, the pending queues with their dummies, and
the lazily reified interest sets over `poll` are classes that change in place.

**gz reading** (`GzRead`). A reader with short reads, two buffers, skip requests and
push-back agrees with random access to the uncompressed stream, over any mix of seeks and
reads.

Code made of loops over mutable state is modelled as methods on classes and arrays, and
proved against functions on sequences. `dafny verify dfyconfig.toml` checks everything.

## What the code does that its comments do not say

- `fill_window` claims that every byte `longest_match` may read has been given a value. That
  is false if the window slides before the high water mark has reached its top: a hole of at
  most four bytes (`HoleIsSmall`) is then left below the middle until data cover it. The bytes
  given a value are always the first `solid` of the lower half and those of the upper half
  below `high_water`. `solid` starts at 0 and each call moves it as `SolidNext` says, from
  `strstart`, `lookahead`, `high_water` and the input alone. `FillWindow` proves for every call
  of a run that the claim holds afterwards if and only if not `LeavesGap()` before;
  `HighWaterGap` is a run of `deflate_slow` that ends where it fails.
- `longest_match` says it returns `prev_length` when nothing better is found; it returns
  `lookahead` when `prev_length` exceeds it. The first candidate may lie exactly MAX_DIST
  back, all later ones must be closer.
- `adler32` of a single byte subtracts BASE once from each sum, so an unreduced starting
  value can leave the second sum unreduced: exactly when `Overshoots` holds, for example
  for 0xfffffff0 and a zero byte (`OvershootExample`).
- The fourth comparison in the slow path of the 4-ary `downheap` can never succeed.
- A signal noted after its watcher has been stopped stays marked (`MarkOutlivesWatcher`)
  until it is watched again, and the next scan delivers it to the new watcher
  (`LaterWatcherIsCalled`).
- `gzseek64` that fails has already dropped a pending skip request, so `gztell64` changes.
- `gzungetc` that finds no room does not just refuse the byte: it is an error, which throws
  away the whole output buffer, bytes of the file that have not been given out included, while
  `gztell64` does not move over them. Everything is refused until `gzclearerr`, and reading
  then goes on behind the lost bytes. `PushTooMuch` reaches it from any reader with buffers,
  `PushBackLoses` from a file of eight bytes. `gzread` of a length that does not fit an int
  does the same.
- `gzungetc` on a reader that has no buffers, no skip request and a byte to push would write
  outside any buffer; such a reader has just been opened (`UnreadIsUntouched`).

## Model

| member | source | states |
|---|---|---|
| HashKey.RollingForgets | 3rdParty/zlib-1.2.7/deflate.c:161-167 | after three UPDATE_HASH steps the key no longer depends on anything older, whatever the key was before |
| HashKey.ThirdByte | 3rdParty/zlib-1.2.7/deflate.c:1146-1287 | equal keys and equal first two bytes force equal third bytes, for every hash size of at least 8 bits; this is why longest_match need not compare byte 2 |
| HashChain.InsertAgrees | 3rdParty/zlib-1.2.7/deflate.c:186-189 | writing head and prev as INSERT_STRING does keeps both tables equal to the simple index (earlier positions with the same key, newest first) with the new string in front |
| HashChain.SlideAgrees | 3rdParty/zlib-1.2.7/deflate.c:1417-1449 | subtracting w_size from every link, and cutting those at or below it, keeps the tables equal to the index of the slid window |
| HashChain.Step | 3rdParty/zlib-1.2.7/deflate.c:1282-1283 | the link of an entry less than w_size old has not been overwritten; it names the next older entry of the chain and lies strictly below it |
| HashChain.FollowLink | 3rdParty/zlib-1.2.7/deflate.c:1282-1283 | a link above the limit leads to the next candidate and none is skipped; a link at or below it means there is no further candidate |
| MatchFinders.MatchFinder.constructor | 3rdParty/zlib-1.2.7/deflate.c:213-320 | a fresh window: empty dictionary, checksum of nothing, invariant holds |
| MatchFinders.MatchFinder.InsertString | 3rdParty/zlib-1.2.7/deflate.c:181-189 | the string joins the dictionary, the result is the previous head of its chain, and the rolling key is ready for the next string |
| MatchFinders.MatchFinder.SlideLinks | 3rdParty/zlib-1.2.7/deflate.c:1430-1446 | in place, every link becomes link - w_size or NIL |
| MatchFinders.MatchFinder.Slide | 3rdParty/zlib-1.2.7/deflate.c:1417-1449 | window, dictionary and all indices move down by w_size and no absolute position changes; match_start wraps in 32 bits |
| MatchFinders.MatchFinder.ReadBuf | 3rdParty/zlib-1.2.7/deflate.c:1074-1099 | min(size, avail_in) bytes go from the input to the data, in order, and the running checksum still covers exactly the data |
| MatchFinders.MatchFinder.InsertPending | 3rdParty/zlib-1.2.7/deflate.c:1468-1487 | the waiting strings, oldest first, join the dictionary as far as they are complete, each exactly once, and the rolling key restarts |
| MatchFinders.MatchFinder.FillWindow | 3rdParty/zlib-1.2.7/deflate.c:1388-1530 | the window holds the input at its absolute positions; input is taken in order; room for a search remains; MIN_LOOKAHEAD bytes or no input left; the record of written bytes is kept (WrittenOk), and every byte a search may read has been given a value if and only if not LeavesGap before the call |
| MatchFinders.FillTracks | 3rdParty/zlib-1.2.7/deflate.c:1494-1526 | reading and zeroing on the record of written bytes: where the written part of each half ends, and exactly when a hole stays within reach of a search |
| MatchFinders.MatchFinder.InitialisedExactly | 3rdParty/zlib-1.2.7/deflate.c:1494-1501 | in every state of a run with data, all bytes a search may read have been given a value if and only if they end before the hole |
| MatchFinders.MatchFinder.Forget | 3rdParty/zlib-1.2.7/deflate.c:929-936 | a full flush empties the dictionary and, with no lookahead, restarts the window, changing no absolute position |
| MatchFinders.MatchFinder.Candidate | 3rdParty/zlib-1.2.7/deflate.c:1197-1264 | a candidate is accepted exactly if it agrees for more than best_len bytes, and then its length is the full agreement up to MAX_MATCH |
| MatchFinders.MatchFinder.Walk | 3rdParty/zlib-1.2.7/deflate.c:1151-1283 | the walk strictly descends and, unless cut short by nice_match or the chain budget, leaves no candidate that beats the result |
| MatchFinders.MatchFinder.LongestMatch | 3rdParty/zlib-1.2.7/deflate.c:1146-1287 | the result is at most lookahead; above prev_length it is a true match at match_start within MAX_DIST, and no closer string matches as long, whatever the budget; if the budget covers the chain and nice_match is not reached, nothing in reach continues longer |
| MatchFinders.MatchFinder.NothingInReach | 3rdParty/zlib-1.2.7/deflate.c:1755-1757 | where no search starts, because the chain is empty or its head is out of reach, no string of the dictionary within reach has the same three bytes |
| MatchFinders.MatchFinder.FewCandidates | 3rdParty/zlib-1.2.7/deflate.c:1151-1169 | the chain budget covers the chain if no more strings are within reach than a quarter of max_chain_length |
| Tokens.CopyRepeats | 3rdParty/zlib-1.2.7/deflate.c:1351-1373 | copying byte by byte, overlap included, reproduces input that repeats at that distance (section 3.2.3 of RFC 1951) |
| Tokens.DecodeFaithful | 3rdParty/zlib-1.2.7/deflate.c:1536-1551 | however each block is encoded, decoding the blocks one after the other gives back the input they were cut from |
| Tokens.RepresentsMatch | 3rdParty/zlib-1.2.7/deflate.h:330-338 | tallying a match carries a decoder on by exactly its length |
| Tokens.RepresentsFlush | 3rdParty/zlib-1.2.7/deflate.c:1536-1546 | ending a block keeps flushed blocks plus tallied tokens equal to the input |
| Tokens.TokensCoverBlock | 3rdParty/zlib-1.2.7/deflate.c:1536-1546 | the token lengths since the last flush sum to strstart - block_start |
| SymbolBuffers.SymbolBuffer.TallyLit | 3rdParty/zlib-1.2.7/deflate.h:323-329 | the literal is appended; the buffer-full flag is raised exactly at lit_bufsize-1 symbols |
| SymbolBuffers.SymbolBuffer.TallyDist | 3rdParty/zlib-1.2.7/deflate.h:330-338 | distance and length survive their 16-bit and 8-bit storage |
| PendingOutputs.PendingOutput.PutByte | 3rdParty/zlib-1.2.7/deflate.h:278 | a byte is put only while nothing has been delivered from the front of the buffer, and extends what has been put by itself |
| PendingOutputs.PendingOutput.FlushPending | 3rdParty/zlib-1.2.7/deflate.c:640-660 | bytes delivered followed by bytes pending stay equal to the bytes put, in order, and no bit of the stream changes; afterwards nothing is pending or the output is full |
| PendingOutputs.PendingOutput.FlushBits | 3rdParty/zlib-1.2.7/trees.c:1167-1179 | whole bytes of the bit buffer go out, at most seven bits stay, and the stream of bits is unchanged |
| PendingOutputs.PendingOutput.SendBits | 3rdParty/zlib-1.2.7/trees.c:213-226 | the bits of the value, and no others, are appended to the stream of bits, also when the 16-bit buffer overflows |
| PendingOutputs.PendingOutput.WindUp | 3rdParty/zlib-1.2.7/trees.c:1184-1197 | zeros up to the next byte boundary are appended and the bit buffer is empty |
| PendingOutputs.PendingOutput.Encode | 3rdParty/zlib-1.2.7/trees.c:865-875 | the code of a block, bits and aligned bytes, follows the bits put before |
| Deflaters.DistanceSlides | 3rdParty/zlib-1.2.7/deflate.c:1420-1421 | the emitted distance is unchanged by a slide, also when match_start wraps to (unsigned)-1 |
| Deflaters.Deflater.FlushBlockOnly | 3rdParty/zlib-1.2.7/deflate.c:1536-1545 | the block stands for exactly the input from block_start to strstart, whether its bytes are still in the window or not |
| Deflaters.CodeSnoc | 3rdParty/zlib-1.2.7/deflate.c:1536-1545 | the bits put are the header and the code of all blocks so far, in order, and stay so when a block is added |
| Deflaters.Deflater.RunLength | 3rdParty/zlib-1.2.7/deflate.c:1880-1896 | the run found is real, 0 or 3..258, within the lookahead and as long as possible |
| Deflaters.Deflater.FindRun | 3rdParty/zlib-1.2.7/deflate.c:1880-1896 | the run that is there is taken, unless nothing has come before since the last full flush or fewer than three bytes are left |
| Deflaters.Deflater.DeflateHuff | 3rdParty/zlib-1.2.7/deflate.c:1932-1965 | tokens reach exactly to strstart at every exit; finish leaves exactly one last block |
| Deflaters.Deflater.DeflateRle | 3rdParty/zlib-1.2.7/deflate.c:1859-1926 | the same for runs of distance 1: a literal only where the previous byte is not repeated three times, a run as long as it can be; nothing is chosen with MAX_MATCH bytes ahead or less unless flushing |
| Deflaters.Deflater.DeflateStored | 3rdParty/zlib-1.2.7/deflate.c:1562-1617 | block_start is never negative, every block has at most min(65535, pending_buf_size - 5) bytes, and the blocks concatenate to the input |
| Deflaters.Deflater.DeflateFast | 3rdParty/zlib-1.2.7/deflate.c:1626-1720 | tokens reach exactly to strstart at every exit, with every match 3..258 long and 1..MAX_DIST back, every token in the log for its reason, and the dictionary in step; nothing is chosen with less than MIN_LOOKAHEAD bytes ahead unless flushing |
| Deflaters.Deflater.FastSearch | 3rdParty/zlib-1.2.7/deflate.c:1651-1667 | the current string joins the dictionary if it is complete; a match found is true, the longest and the closest of its length; if none is found, none of three bytes is within reach, provided the chain budget covers the candidates |
| Deflaters.Deflater.MoveOver | 3rdParty/zlib-1.2.7/deflate.c:1674-1700 | the strings of a match join the dictionary, all of them or none, as max_insert_length and the lookahead say |
| Deflaters.Deflater.LazySearch | 3rdParty/zlib-1.2.7/deflate.c:1758-1784 | there is a search exactly if the previous match is shorter than max_lazy, and then nothing longer within reach is overlooked: the result is the longest match, true and the closest of its length, or none is longer than the previous one; no match is kept only if none of three bytes is within TOO_FAR and none longer anywhere, or, filtering, none of six; all provided the chain budget covers the candidates |
| Deflaters.Deflater.EmitPrevious | 3rdParty/zlib-1.2.7/deflate.c:1788-1817 | the match emitted for the previous byte was the longest there and is not beaten by one at the current byte, if that was to be looked for; its strings join the dictionary as far as they are complete |
| Deflaters.Deflater.EmitPreviousByte | 3rdParty/zlib-1.2.7/deflate.c:1819-1833 | the previous byte goes out alone only if no match there was worth keeping or a strictly longer true match begins at the current byte |
| Deflaters.Deflater.InsertRest | 3rdParty/zlib-1.2.7/deflate.c:1789-1811 | of the strings inside a match exactly those that are complete join the dictionary, in order, and the rolling key is ready behind it |
| Deflaters.Deflater.DeflateSlow | 3rdParty/zlib-1.2.7/deflate.c:1728-1851 | tokens reach exactly to strstart minus match_available at every exit, with every match true, also across slides between finding and emitting it, and every token in the log for its reason; nothing is looked for with less than MIN_LOOKAHEAD bytes ahead unless flushing |
| Deflaters.Deflater.InitialisedBetweenCalls | 3rdParty/zlib-1.2.7/deflate.c:1494-1501 | the same between any two calls of any strategy |
| Deflaters.HighWaterGap | 3rdParty/zlib-1.2.7/deflate.c:1494-1526 | deflate_slow compresses 762 bytes for a flush and takes three more: at its next search, bytes the search may read have no value |
| Deflaters.Deflater.Compress | 3rdParty/zlib-1.2.7/deflate.c:901-903 | whichever strategy runs, more calls may follow from where it left off; block_done and finish_done mean that all input is in blocks and output space is left |
| Choices.HigherSearchesMore | 3rdParty/zlib-1.2.7/deflate.c:133-148 | of two levels with the same function the higher searches at least as hard in all four parameters |
| Deflaters.Deflater.ForgetHistory | 3rdParty/zlib-1.2.7/deflate.c:929-936 | a full flush leaves a state from which compression goes on, and a cut behind which no later match refers back |
| DeflateStreams.HeaderChecks | 3rdParty/zlib-1.2.7/deflate.c:735-752 | the zlib header is a multiple of 31 and gives back method, window size and level (section 2.2 of RFC 1950) |
| DeflateStreams.DeflateStream.constructor | 3rdParty/zlib-1.2.7/deflate.c:213-320 | a new stream satisfies the invariant of all later calls |
| DeflateStreams.DeflateStream.Begin | 3rdParty/zlib-1.2.7/deflate.c:670-893 | argument errors, the header and left-over output: exactly when each error is returned, that errors put nothing, and what last_flush becomes |
| DeflateStreams.RankOrder | 3rdParty/zlib-1.2.7/deflate.c:159 | the order of the flush modes when a repeated one is refused: none, Z_BLOCK, partial, sync, full, finish |
| DeflateStreams.DeflateStream.Work | 3rdParty/zlib-1.2.7/deflate.c:895-945 | after the compressor and the flush-mode epilogue, either output space ran out, or all input is in blocks and delivered; the assertion that output space is left holds |
| DeflateStreams.DeflateStream.EndFlush | 3rdParty/zlib-1.2.7/deflate.c:921-943 | exactly the empty block of the flush mode is added, of tokens for a partial flush, stored for a sync or full flush, none for Z_BLOCK, and it stands for nothing; a full flush, and no other, makes a cut |
| DeflateStreams.DeflateStream.End | 3rdParty/zlib-1.2.7/deflate.c:947-974 | the trailer is put at most once, and Z_STREAM_END is returned exactly when it is delivered |
| DeflateStreams.DeflateStream.Deflate | 3rdParty/zlib-1.2.7/deflate.c:663-974 | one call: no input lost, output only appended; Z_STREAM_ERROR exactly for other modes after finish; Z_BUF_ERROR exactly without space, for a flush no stronger than the last with nothing new, or for input after the end, so that the same flush again is refused; Z_OK with space left means all input taken, or for flushes, in blocks and delivered, the block of the flush mode last, and for a full flush a place to start reading; Z_STREAM_END only with everything delivered; nothing is put after it |
| DeflateStreams.DeflateStream.RoundTrip | 3rdParty/zlib-1.2.7/deflate.c:663-974 | at the end, and at any flush that leaves nothing waiting, the blocks decode to the whole input so far, for every choice of encodings |
| DeflateStreams.DeflateStream.Restart | 3rdParty/zlib-1.2.7/deflate.c:929-936 | after any later calls, the blocks behind a full flush decode on their own to the input behind it, for every choice of encodings |
| Choices.RestartReads | 3rdParty/zlib-1.2.7/deflate.c:929-936 | the same on blocks, tokens and cuts |
| DeflateStreams.DeflateStream.EveryTokenHasReason | 3rdParty/zlib-1.2.7/deflate.c:1626-1965 | every token of the blocks is in the log, at the position where those before it end, for the reason its strategy gives, and every string that has joined the dictionary since the last full flush and is within reach was to be seen |
| Choices.LoggedAt | 3rdParty/zlib-1.2.7/deflate.c:1626-1965 | the same for one entry of any log |
| Choices.NothingMissed | 3rdParty/zlib-1.2.7/deflate.c:1626-1851 | an earlier string within reach and budget: where deflate_fast emits a literal it does not continue for three bytes; where deflate_slow does, unless a longer match begins one byte on, it continues for less than four bytes, less than three within TOO_FAR, or less than six if short matches are filtered; where either emits a match it continues no further, and, if closer, not as far |
| DeflateStreams.DeflateStream.EndDelivers | 3rdParty/zlib-1.2.7/deflate.c:947-974 | after Z_STREAM_END the caller holds exactly the header, the code of the blocks in order padded to a byte, and the trailer; the blocks decode to the input |
| DeflateStreams.DeflateStream.HeaderSays | 3rdParty/zlib-1.2.7/deflate.c:679-757 | the bytes the caller holds begin with nothing, the two bytes of RFC 1950 (method, window size, level, no dictionary, multiple of 31), or the ten of RFC 1952 (magic 31 and 139, method, no flags, no time, level, system) |
| DeflateStreams.DeflateStream.ZlibSays | 3rdParty/zlib-1.2.7/deflate.c:963-967 | they end with four bytes, most significant first: the sum of the running sums and one plus the sum of the input bytes, both modulo 65521; the blocks lie between |
| DeflateStreams.DeflateStream.GzipSays | 3rdParty/zlib-1.2.7/deflate.c:951-961 | they end with eight bytes, least significant first: the bitwise CRC-32 of the input and its length modulo 2^32; the blocks lie between |
| DeflateStreams.DeflateStream.RawSays | 3rdParty/zlib-1.2.7/deflate.c:947-948 | without a wrapper they are the code of the blocks and nothing else |
| DeflateStreams.DeflateStream.Run | 3rdParty/zlib-1.2.7/deflate.c:663-974 | any sequence of calls with any chunks, output sizes and flush modes: input is conserved, and if the last call says Z_STREAM_END the caller holds what EndDelivers says, for the whole input, and behind every full flush that left space a reader may start and gets the input of the later calls |
| DeflateStreams.DeflateStream.ReaderGetsInput | 3rdParty/zlib-1.2.7/deflate.c:947-974 | decoding the delivered bytes between header and trailer gives the input, for any reader of bits that undoes the encoder on each block |
| BlockReaders.ReadsFrom | 3rdParty/zlib-1.2.7/deflate.c:1536-1545 | reading the code of consecutive blocks, from any of them on, gives what all of them decode to |
| DeflateStreams.DeflateStream.FinishStream | 3rdParty/zlib-1.2.7/deflate.c:663-974 | Z_FINISH again and again, with any positive space each time, reaches Z_STREAM_END with everything delivered |
| Checksum.ExtendAppend | 3rdParty/zlib-1.2.7/deflate.c:1087-1094 | checking two chunks one after the other is checking their concatenation; what the checks are is in ZlibSays and GzipSays |
| Crc.ShiftsLinear | 3rdParty/zlib-1.2.7/crc32.c:90-133 | the shift register is linear over GF(2) |
| Crc.TableStep | 3rdParty/zlib-1.2.7/crc32.c:200 | one table lookup is eight register steps |
| Crc.MakeCrcTable | 3rdParty/zlib-1.2.7/crc32.c:90-133 | every entry of all eight tables is what the register gives, byte-swapped in the last four |
| Crc.FourTables | 3rdParty/zlib-1.2.7/crc32.c:241-243 | four lookups are thirty-two register steps |
| Crc.Crc32Bytes | 3rdParty/zlib-1.2.7/crc32.c:204-236 | the byte-at-a-time loop computes the bitwise CRC (section 8 of RFC 1952) |
| Crc.CheckValue | 3rdParty/zlib-1.2.7/crc32.c:204-236 | polynomial, bit order and complements are those of the CRC-32 of RFC 1952: the nine digits 123456789 give 0xcbf43926 |
| Crc.Crc32Little | 3rdParty/zlib-1.2.7/crc32.c:247-278 | four-byte slicing computes the same for every alignment of the buffer and every length |
| Crc.Crc32Big | 3rdParty/zlib-1.2.7/crc32.c:287-320 | so does the byte-swapped form |
| Crc.SplitCalls | 3rdParty/zlib-1.2.7/crc32.c:204-236 | the CRC of a concatenation from two calls |
| Crc.TimesIsShifts | 3rdParty/zlib-1.2.7/crc32.c:327-341 | multiplying by the operator matrix applies the register steps it stands for |
| Crc.Gf2MatrixTimes | 3rdParty/zlib-1.2.7/crc32.c:327-341 | the loop computes the matrix-vector product over GF(2) |
| Crc.Gf2MatrixSquare | 3rdParty/zlib-1.2.7/crc32.c:344-352 | squaring doubles the number of zero bits the operator appends |
| Crc.Crc32Combine | 3rdParty/zlib-1.2.7/crc32.c:355-408 | the even/odd loop applies exactly len2 zero bytes to crc1 |
| Crc.CombineCorrect | 3rdParty/zlib-1.2.7/crc32.c:355-408 | zero bytes applied to crc(A), exclusive-ored with crc(B), is crc(A ++ B) |
| Crc.CombineStrings | 3rdParty/zlib-1.2.7/crc32.c:411-425 | crc32_combine(crc(A), crc(B), |B|) equals crc(A ++ B) for all byte strings |
| Adler.Chop | 3rdParty/zlib-1.2.7/adler32.c:29-34 | CHOP keeps the remainder |
| Adler.Mod28 | 3rdParty/zlib-1.2.7/adler32.c:35-39 | equals a % 65521 over 28 bits |
| Adler.Mod | 3rdParty/zlib-1.2.7/adler32.c:40-44 | equals a % 65521 over 32 bits |
| Adler.Mod63 | 3rdParty/zlib-1.2.7/adler32.c:45-57 | equals a % 65521 over 63 bits |
| Adler.BlockFits | 3rdParty/zlib-1.2.7/adler32.c:14-16 | after NMAX bytes no sum exceeds 2^32-1 |
| Adler.NmaxIsTight | 3rdParty/zlib-1.2.7/adler32.c:14-16 | one more byte can exceed it |
| Adler.Adler32 | 3rdParty/zlib-1.2.7/adler32.c:65-133 | equals the per-byte definition for every length, all three length paths included; the one-byte path leaves a sum unreduced exactly when Overshoots says so |
| Adler.OneByteExact | 3rdParty/zlib-1.2.7/adler32.c:78-86 | the one-byte path gives the definition exactly unless the second sum overshoots |
| Adler.OvershootExample | 3rdParty/zlib-1.2.7/adler32.c:78-86 | for 0xfffffff0 and a zero byte the second sum is left at 65534 where the definition gives 13 |
| Adler.SplitCalls | 3rdParty/zlib-1.2.7/adler32.c:65-133 | any split into calls gives the same result |
| Adler.AdlerClosedForm | 3rdParty/zlib-1.2.7/adler32.c:65-133 | the sums of section 8.2 of RFC 1950 written out |
| Adler.AdlerCombine | 3rdParty/zlib-1.2.7/adler32.c:136-162 | the subtractions reduce correctly for reduced inputs; negative lengths give 0xffffffff |
| Adler.CombineCorrect | 3rdParty/zlib-1.2.7/adler32.c:136-162 | what it computes is the Adler-32 of the concatenation, for all byte strings |
| Wakeup.SendKeeps | 3rdParty/libev/ev.c:1851-1892 | every step of any sender keeps the invariant |
| Wakeup.PollKeeps | 3rdParty/libev/ev.c:3008-3069 | every step of the loop around backend_poll keeps it |
| Wakeup.PipecbKeeps | 3rdParty/libev/ev.c:1896-1944 | every step of pipecb outside the scans keeps it |
| Wakeup.ScanKeeps | 3rdParty/libev/ev.c:1925-1942 | a step of the scan keeps the invariant: passing over a watcher loses nothing |
| Wakeup.StartKeeps | 3rdParty/libev/ev.c:4252-4269 | starting an async watcher keeps it, the slot numbers included |
| Wakeup.StopKeeps | 3rdParty/libev/ev.c:4271-4290 | stopping one moves the last into its slot and keeps it |
| Wakeup.RunKeepsInv | 3rdParty/libev/ev.c:1851-1944 | the invariant holds in every execution, with any number of senders in any interleaving |
| Wakeup.NoLostWakeup | 3rdParty/libev/ev.c:1851-1944 | never is the loop asleep with an empty pipe, nobody mid-write and a flag set |
| Wakeup.EverySendIsKept | 3rdParty/libev/ev.c:4292-4297 | what was sent to an active target is about to be fed, or still marked with its flag set or the scan yet to reach it, or the send has not got past its flag |
| Wakeup.NobodyIsOwedAtRest | 3rdParty/libev/ev.c:3008-3069 | once all sends are through, the loop never sleeps owing an event |
| Wakeup.FeedsAreDeserved | 3rdParty/libev/ev.c:1921-1942 | over any run from any reachable state, every feed of a watcher or signal uses up one mark that a send has set |
| Wakeup.NoFeedWithoutSend | 3rdParty/libev/ev.c:1921-1942 | from the start, the feeds of a target, one about to be made included, never outnumber the sends that have marked it, and only active ones are fed |
| Wakeup.NoFeedTwice | 3rdParty/libev/ev.c:1936-1941 | once its mark is cleared and the feed made, a target is not fed again without another send |
| Wakeup.FreshWatcherNeedsSend | 3rdParty/libev/ev.c:4252-4269 | a watcher that is started is not fed for what was sent before |
| Wakeup.WhoIsActive | 3rdParty/libev/ev.c:4252-4290 | starting and stopping change who is watched for exactly the one named, and nothing else does |
| Wakeup.LoopDelivers | 3rdParty/libev/ev.c:1896-1944 | left to itself the loop feeds every target it owes an event to after finitely many of its own steps |
| Wakeup.LoopFallsAsleep | 3rdParty/libev/ev.c:1896-1920 | no busy loop: left to itself the loop empties the pipe and blocks after finitely many of its own steps |
| Wakeup.AsleepOwesNobody | 3rdParty/libev/ev.c:3008-3069 | asleep with an empty pipe and no call in progress, no flag is set and no event owed |
| Wakeup.SendsEnd | 3rdParty/libev/ev.c:1851-1892 | however their steps interleave with the loop's, calls in progress finish within seven steps each |
| Wakeup.LoopGoesOn | 3rdParty/libev/ev.c:3008-3069 | from every reachable state the loop can go on for any number of steps |
| Wakeup.SendsInFlightAreDelivered | 3rdParty/libev/ev.c:1851-1944 | from any reachable state, once the calls in flight have finished in any interleaving, every owed target is fed within a given number of steps of the loop |
| Wakeup.OwedUntilFed | 3rdParty/libev/ev.c:4292-4297 | a send that marks an active target makes the loop owe it an event, and only a feed settles that, or that it is watched no more |
| Wakeup.OwedIsFed | 3rdParty/libev/ev.c:1851-1944 | whatever is owed when the calls in flight have finished is fed within a given number of steps of the loop |
| Wakeup.MarkOutlivesWatcher | 3rdParty/libev/ev.c:1976-1991 | a signal noted while nobody watches it stays marked over any run until it is watched again |
| Wakeup.LaterWatcherIsCalled | 3rdParty/libev/ev.c:1921-1928 | once it is, the next scan feeds the new watcher |
| Heaps.HParent | 3rdParty/libev/ev.c:1672-1675 | the parent is a smaller slot of the heap; at the root, truncating division gives the root itself (4-heap) or 0 (2-heap) |
| Heaps.Children | 3rdParty/libev/ev.c:1672-1690 | parent and child indices are inverse, for both arities |
| Heaps.RootIsLeast | 3rdParty/libev/ev.c:2529-2531 | heap order makes the root the earliest timer |
| Heaps.Heap.Upheap | 3rdParty/libev/ev.c:1758-1777 | restores a heap whose slot k may be too early; same entries, every watcher knows its slot |
| Heaps.Heap.LeastOfFour | 3rdParty/libev/ev.c:1693-1709 | fast and slow path find the minimum child |
| Heaps.Heap.Downheap | 3rdParty/libev/ev.c:1679-1754 | restores a heap whose slot k may be too late, in the 4-ary and the 2-ary form |
| Heaps.Heap.Adjustheap | 3rdParty/libev/ev.c:1780-1787 | restores a heap in which one slot has an arbitrary new time |
| Heaps.Heap.Reheap | 3rdParty/libev/ev.c:1790-1799 | makes a heap of any array of distinct watchers |
| Heaps.Heap.Insert | 3rdParty/libev/ev.c:3285-3290 | ev_timer_start adds exactly the watcher |
| Heaps.Heap.Delete | 3rdParty/libev/ev.c:3307-3318 | ev_timer_stop removes exactly the watcher; the last entry fills the gap |
| Heaps.Heap.Change | 3rdParty/libev/ev.c:3338-3340 | a new time is cached and the heap restored |
| PendingQueues.EventQueue.PendingIsPlace | 3rdParty/libev/ev.c:2512-2519 | a watcher waits in at most one place and pending is that place plus one |
| PendingQueues.EventQueue.FeedEvent | 3rdParty/libev/ev.c:1425-1440 | events are ORed into the watcher's entry, or it joins the queue of its priority |
| PendingQueues.OrBits | 3rdParty/libev/ev.c:1431 | a merged entry has exactly the events of either |
| PendingQueues.EventQueue.ClearPending | 3rdParty/libev/ev.c:3177-3203 | a dummy takes the place, no other entry moves, the events are returned |
| PendingQueues.EventQueue.InvokePending | 3rdParty/libev/ev.c:2682-2696 | with callbacks that do not feed, empties all queues, the last fed first, calls no watcher before one whose priority field is higher, and leaves no watcher pending |
| PendingQueues.EventQueue.CalledOnce | 3rdParty/libev/ev.c:2682-2696 | each waiting, uncleared watcher is called exactly once |
| PendingQueues.EventQueue.CalledByPriority | 3rdParty/libev/ev.c:2682-2696 | callbacks run in non-increasing order of the priority field |
| PendingQueues.FedSplits | 3rdParty/libev/ev.c:1425-1440 | feeding any watchers one after the other: events are merged into the entries of those that wait, place for place, and the others join in order |
| PendingQueues.ReverseFeedRunsInOrder | 3rdParty/libev/ev.c:1442-1455 | feeding any watchers in reverse and invoking last-in-first-out runs those that were not waiting in the original order, ahead of what was waiting, which keeps its places with the event merged in |
| PendingQueues.EventQueue.PriAdjust | 3rdParty/libev/ev.c:3205-3212 | the priority becomes the nearest in -2..2, which changes nothing for a waiting watcher |
| Timers.TimerLoop.TimerStart | 3rdParty/libev/ev.c:3273-3295 | an inactive timer enters the heap at now plus its delay; everything stays valid |
| Timers.TimerLoop.TimerStop | 3rdParty/libev/ev.c:3297-3325 | the timer leaves heap and queue and keeps its remaining time |
| Timers.TimerLoop.TimerAgain | 3rdParty/libev/ev.c:3327-3352 | a repeating timer is due a full period from now, any other is stopped |
| Timers.TimerLoop.Collect | 3rdParty/libev/ev.c:2728-2753 | terminates; lists exactly the expired timers, each once, in non-decreasing order of expiry; leaves no expired timer; each has its next time; exactly the waiting one-shot timers become dummies |
| Timers.TimerLoop.NextTime | 3rdParty/libev/ev.c:2737-2743 | the next time of a repeating timer is a period after the time it was due, or now if that has passed, so never earlier than now |
| Timers.TimerLoop.FeedReverseDone | 3rdParty/libev/ev.c:1449-1455 | feeds the list backwards into the queues |
| Timers.TimerLoop.TimersReify | 3rdParty/libev/ev.c:2723-2759 | all of that in one call, and the resulting queues |
| Timers.TimerLoop.RunExpired | 3rdParty/libev/ev.c:2723-2759 | followed by ev_invoke_pending, whatever was waiting: no watcher runs before one of higher priority; within a priority the expired timers that were not waiting, or were stopped, run first, then the old entries in their places with the event merged in |
| Timers.TimerLoop.NewRunAsExpired | 3rdParty/libev/ev.c:2723-2759 | those first ones are exactly the expired timers of the priority that do not wait, each once, in non-decreasing order of expiry |
| FdChanges.PollBackend.PollModify | 3rdParty/libev/ev_poll.c:51-86 | polls and pollidxs stay inverse and hold exactly the descriptors with interest, with the right masks |
| FdChanges.RemoveHolds | 3rdParty/libev/ev_poll.c:76-85 | swap removal keeps that |
| FdChanges.PollMaskBits | 3rdParty/libev/ev_poll.c:71-74 | POLLIN is asked for exactly if EV_READ is wanted, POLLOUT exactly if EV_WRITE is, and nothing else |
| FdChanges.IoLoop.FdChange | 3rdParty/libev/ev.c:1563-1575 | a descriptor is in fdchanges once, and exactly if its change flag is set |
| FdChanges.IoLoop.IoStart | 3rdParty/libev/ev.c:3231-3252 | the watcher heads its descriptor's list and the descriptor has changed; everything stays valid |
| FdChanges.IoLoop.IoStop | 3rdParty/libev/ev.c:3254-3271 | the watcher is off the list and the queue and the descriptor has changed |
| FdChanges.IoLoop.FdKill | 3rdParty/libev/ev.c:1578-1588 | every watcher of the descriptor is stopped and told |
| FdChanges.IoLoop.OrOfMasks | 3rdParty/libev/ev.c:1548-1549 | the loop computes the OR over the watcher list |
| FdChanges.IoLoop.FdReify | 3rdParty/libev/ev.c:1503-1560 | terminates with fdchanges empty and every descriptor's mask equal to the OR over its list and known to the backend; a descriptor the backend finds unusable loses its watchers if its mask was to change, and all other lists stay |
| GzReaders.GzReader.constructor | 3rdParty/zlib-1.2.7/gzlib.c:171-255 | a freshly opened reader stands at the start of the stream |
| GzReaders.GzReader.GzLoad | 3rdParty/zlib-1.2.7/gzread.c:20-42 | the bytes of the file in order, until the buffer is full or the file ends, whatever counts read() returns |
| GzReaders.GzReader.GzAvail | 3rdParty/zlib-1.2.7/gzread.c:51-74 | unread input is kept and the buffer filled |
| GzReaders.GzReader.GzLook | 3rdParty/zlib-1.2.7/gzread.c:85-164 | gzip, raw, end or trailing garbage is told apart and nothing that remains to be read changes |
| GzReaders.GzReader.AtEnd | 3rdParty/zlib-1.2.7/gzread.c:343-347 | when the input is used up all of the stream has been given out |
| GzReaders.GzReader.GzDecomp | 3rdParty/zlib-1.2.7/gzread.c:171-217 | the next bytes of the stream, until the space is full or the member ends |
| GzReaders.GzReader.GzFetch | 3rdParty/zlib-1.2.7/gzread.c:225-252 | terminates with data in the buffer or at the end, and nothing that remains changes |
| GzReaders.GzReader.GzSkip | 3rdParty/zlib-1.2.7/gzread.c:255-284 | drops exactly that many bytes, or all |
| GzReaders.GzReader.GzRead | 3rdParty/zlib-1.2.7/gzread.c:287-378 | returns the first len bytes of what remains after a pending seek, or all, along every path (buffered, direct, decompressed in place), and says where the reported position ends up; -1 exactly after an error or for a length that does not fit an int, which is an error itself; gzeof afterwards exactly if it was before or this read asked for more than there was |
| GzReaders.GzReader.CleanReads | 3rdParty/zlib-1.2.7/gzread.c:287-378 | without push-back, what is read next is the stream from the reported position on |
| GzReaders.GzReader.GzRewind | 3rdParty/zlib-1.2.7/gzlib.c:329-349 | back to the start of the stream, unless there has been an error |
| GzReaders.GzReader.GzSeek | 3rdParty/zlib-1.2.7/gzlib.c:352-426 | exactly when it succeeds, that gztell64 then is the target, that it keeps reads and stream in agreement, and that after an error it does nothing |
| GzReaders.GzReader.ReadAt | 3rdParty/zlib-1.2.7/gzlib.c:352-426 | one seek and one read agree with plain random access to the uncompressed stream |
| GzReaders.GzReader.Perform | 3rdParty/zlib-1.2.7/gzlib.c:352-455 | any sequence of seeks, absolute or relative, and reads, refused ones included: each returns what random access at the place reported before gives, and leaves exactly the place it should |
| GzReaders.GzReader.GzUngetc | 3rdParty/zlib-1.2.7/gzread.c:418-475 | a byte that fits comes first of what remains, and x.pos + x.have stays; x.pos + x.have stays if and only if nothing is pushed or there is room; otherwise the output buffer is lost and an error is set; after an error nothing happens; a pushed byte ends gzeof |
| GzReaders.GzReader.GzError | 3rdParty/zlib-1.2.7/gzlib.c:564-600 | an error empties the output buffer, so that what remains begins behind it, and x.pos stays |
| GzReaders.GzReader.GzClearErr | 3rdParty/zlib-1.2.7/gzlib.c:538-556 | the error is gone and what remains has not changed |
| GzReaders.GzReader.PushTooMuch | 3rdParty/zlib-1.2.7/gzread.c:455-459 | from any reader with buffers, pushing back until it is refused loses all that was buffered, pushed or not |
| GzReaders.PushBackLoses | 3rdParty/zlib-1.2.7/gzread.c:455-459 | a file of eight bytes, one read and pushed back, and more pushed: part of the file is never given out |
| GzReaders.GzReader.UnreadIsUntouched | 3rdParty/zlib-1.2.7/gzlib.c:171-255 | a reader without buffers and without a skip request is as gzopen left it, at position 0 with the whole stream to come |

## Left out

- Huffman coding: the encoder of trees.c is an arbitrary function from a block to bits and
  aligned bytes. Its code is traced into the output bit by bit; that the code of one block can be
  decoded is what ReaderGetsInput assumes. A block may be stored whenever its bytes are at hand,
  otherwise its tokens are coded.
- The capacity of pending_buf and the overlay of pending_buf with l_buf and d_buf: the
  pending buffer is unbounded here. The round trip is about blocks. It does not cover the
  claim in compress_block that the code of a block stays clear of the symbols not coded yet,
  which with Z_FIXED and distant matches of 31 bits is not implied by the sizes.
- deflateSetDictionary, deflateParams, deflateTune, deflatePrime, deflateCopy and gzip header
  fields: level and strategy are fixed for a run and there is no preset dictionary.
- FASTEST, UNALIGNED_OK, 16-bit integers and assembler variants; unrolled loops are plain loops.
- Masks with powers of two are remainders, in the window index and in the hash key.
- That lazy evaluation compresses better than greedy: each choice is proved to have its reason, not
  to be the best for what follows. When more candidates share a hash chain than its budget covers, a
  match is still true and closest of its length, but a longer one may be missed.
- Strings that never join the dictionary, because a call ran out of output space while they were
  incomplete, may be missed later; which ones join is exact.
- Checksum constants of crc32.h: the table generator is the definition.
- Weak memory orders in the wake-up handshake: steps are sequentially consistent, which is
  what the fences are for. The handshake starts with the pipe set up; fork is not modelled.
- libev's other watchers and back ends, periodic timers, time jumps and floating-point rounding:
  times are real numbers.
- Callbacks that feed events or start and stop watchers while ev_invoke_pending runs.
- The watcher list of a descriptor is a sequence; the intrusive next pointers are not modelled.
- PendingQueues.EventQueue.InvokePending: callbacks are recorded, not run, because what they
  do is the program's.
- GzReaders.GzReader.GzRead: the file is error-free (complete gzip members, or raw), so of the
  errors only those that a caller causes are modelled; gzopen modes, writing and printf are not.
- GzReaders.GzReader.GzClearErr: requires that bytes after the last member that have been
  ignored hold no magic bytes further on, because they are looked at again.
- GzReaders.GzReader.GzUngetc: does not cover a byte pushed onto a reader that has just been
  opened, where the code would write outside any buffer.
- GzReaders.GzReader.Inflate: inflate() is an oracle for complete members that does not take
  the last byte of a member before all of its output has been given.
- Memory allocation failures.
