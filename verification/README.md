# A verified model of libMantids30's stream machinery

libMantids30 moves byte streams: through chained socket layers that mask every byte, through parsers
that cut them into tokens, through containers that store them in bounded chunks. This project models
those parts in Dafny and proves what they promise for every input, every fragmentation, every
interleaving and every run.

| file | what it holds |
|---|---|
| `Bytes.dfy`, `Search.dfy` | byte strings and XOR masking; where one sequence occurs in another |
| `Keystream.dfy`, `LayerStream.dfy` | the AES keystream buffer; one direction of one chain layer (XOR or AES) as a sending and a receiving half |
| `SocketChainAes.dfy`, `SocketChainXor.dfy` | the two layer classes with their mutable state, tied to the halves |
| `AesLink.dfy`, `AesStalls.dfy`, `AesBytes.dfy` | two AES endpoints from the first handshake byte on; exactly what a failing cipher costs them; the layer byte by byte, and endpoints with different keys |
| `SocketChain.dfy`, `ChainProgress.dfy` | any stack of layers with its pump threads; what stops a pump, and that a running chain is never stuck |
| `Chunks.dfy`, `BChunks.dfy` | the chunked container as values and as an object, its binary search, its readers and its search |
| `Delimiters.dfy`, `DirectDelimiter.dfy`, `ChunkedDelimiter.dfy` | the retained-tail argument; what DIRECT_DELIMITER means over whole streams; exactly when its chunked buffer does that |
| `Tokenizer.dfy`, `EndOfStream.dfy`, `SubParsers.dfy` | parseData over DELIMITER and SIZE sub-parsers against one split of the stream; the write that ends it; the parser objects |
| `QueryKeys.dfy`, `QueryTermination.dfy` | named placeholders: repeated replacement of the earliest key against one pass over the query; when the loop ends at all |
| `Acceptor.dfy` | admission and draining of the multi-threaded acceptor |
| `SafeInt.dfy`, `Encoders.dfy` | checked arithmetic; the obfuscated base64 codec and URL encoding |

What the model takes as given: the cipher and the Mersenne twister are arbitrary functions (`Generator`),
a transport is a FIFO whose answers are parameters, random bytes are parameters, so is what a fresh
allocation holds before it is written to (`Heap`), `parse()` records the bytes it is given, read by walking
chunk sizes as `appendTo` does, and answers from what it has recorded, and `changeToNextParser()` is an
arbitrary choice made from the recorded tokens. The library's base64 encoder is taken as section 4 of RFC 4648
for every size up to INT_MAX. `size_t` sums that could wrap are written out (`Displacement`, the `SIZE_MAX` checks);
elsewhere sizes are natural numbers, including the recorded chunk offsets.

## Where the code and its documentation differ

- `recalcChunkOffsets` is documented to recalculate every offset (Mantids30/Memory/b_chunks.h:135-138) but
  only ever writes the first chunk. The model follows the code. `DisplaceTilesIff` gives the exact effect: a
  displacement keeps the offsets usable if and only if it reaches the last chunk. `FirstByteFoundIff` and
  `RunTilesIff` give the test: in every state, the readers that search the offsets can be trusted if and
  only if the search finds position 0. The readers that walk chunk sizes, and `find`, are proved correct
  whatever the offsets are.
- DIRECT_DELIMITER scans the tail of its buffer through those offsets and displaces the buffer after every
  call that keeps something back. So it does what it means for every fragmentation if and only if the
  delimiter has at most two bytes and the limit on bytes is reached before the limit on chunks
  (`EveryFragmentationIff`). A longer delimiter always fails on its first two bytes and a stranger written
  one at a time (`LongDelimiterFails`); the blank line CR LF CR LF written one byte at a time is not reported
  at all unless a fresh allocation happens to hold its first three bytes (`BlankLineLost`), and no longer
  delimiter is safe from being lost that way (`EveryLongDelimiterIsLost`). Whatever goes
  wrong, no byte is lost, repeated or reordered (`NothingLost`), and writes that each end in a chunk of at
  least all but one of the delimiter's bytes are handled right for every delimiter (`LongWritesAreRight`).
- Every write to a sub-parser opens a chunk of its buffer, so 262144 writes without a token use up the
  buffer whatever its limit on bytes is; the next one clears it and fails (`OneByteWritesSucceedIff`;
  `DriveSucceedsIff` has the exact condition for any write).
- `toURL` divides a signed char, so a byte from 0x80 on loses its high nibble: the round trip holds if and
  only if every byte is below 0x80 (`UrlEncoding.RoundTripIff`).
- `decodeFromBase64Obf` indexes its text with an int, which overflows from 2^31 symbols on, and
  `encodeToBase64` hands the library `safe_cast_or(count, 0)` bytes: the obfuscated base64 round trip holds
  if and only if the input is shorter than 0x6000_0000 bytes (`Base64Obf.RoundTripIff`).
- `cryptoXOR` refuses a header longer than its block and the handshake ignores the refusal; with a block
  size under 112 both sides skip the phase-1 masking, so the handshake still agrees (`Phase1`, `HalvesAgree`).
- When a keystream block cannot be generated, an IV has already been drawn and is skipped. A stalled write
  leaves the sender right for exactly what it had already buffered (`StallKeepsBuffered`); a stalled read has
  lost the bytes it took. Agreement survives a run, under every generator, if and only if in every direction
  whose receiver is past its handshake no read has stalled and no byte was masked beyond what was buffered at
  the first stalled write (`AgreementSurvivesIff`);
  `StalledRunDisagrees` is a run of seven steps in which one byte arrives wrong.
- A handshake retried on the same object uses up keystream left over from the attempt before
  (`PostAcceptSubInitialization`); the agreement theorems start from fresh endpoints.
- With placeholders marked by one character, the rewritten query has as many marks as bound keys if and only
  if the original query contained none of its own (`PlaceholdersMatchKeys`).
- The loop that replaces keys by question marks ends for every query and every key list, unless the empty key
  is listed, or the question mark is listed as a key and occurs in the query (`TerminatesIff`); then it replaces
  it by itself for ever (`QuestionMarkNeverEnds`).

## Model

| member | source | states |
|---|---|---|
| `AesLink.EveryRunAgrees` | Mantids30/Net_Chains/socket_chain_aes.cpp:37-186 | in every run of two endpoints with the same phase-1 key and block size B > 0, from the handshake on, under any interleaving, fragmentation, failed or partial write and failing cipher: the magic check passes and each read header is the peer's written header; while the cipher works, and else in every direction that is not spoiled, delivered plaintext is a prefix of accepted plaintext, ciphertext in flight decrypts to exactly the remainder, the read buffer stays under one block |
| `AesStalls.AgreementSurvivesIff` | Mantids30/Net_Chains/socket_chain_aes.cpp:48-84 | a run keeps both streams in agreement for every generator exactly when, in every direction whose receiver is past its handshake, no read has stalled and no byte was masked beyond those buffered at the first stalled write |
| `AesStalls.StalledRunDisagrees` | Mantids30/Net_Chains/socket_chain_aes.cpp:76-84 | for every setup a concrete run and generator in which what is delivered is not a prefix of what was accepted |
| `AesStalls.SpoiledDisagrees` | Mantids30/Net_Chains/socket_chain_aes.cpp:48-84 | for every spoiled run there is a generator under which the same run ends in disagreement |
| `AesStalls.RunAlike` | Mantids30/Net_Chains/socket_chain_aes.cpp:37-101 | a run possible under one generator is possible under every other and ends with the same lengths, counters and plaintext |
| `AesLink.MoveKeepsInv` | Mantids30/Net_Chains/socket_chain_aes.cpp:37-101 | each handshake, write, read or stalled step keeps both halves of a direction on their keystreams, or a stalled sender right up to what it had buffered |
| `AesLink.OpenTakesAny` | Mantids30/Net_Chains/socket_chain_aes.cpp:37-101 | past both handshakes any write with any answer and any read of what is in flight are possible steps |
| `LayerStream.HalvesAgree` | Mantids30/Net_Chains/socket_chain_aes.cpp:37-101 | a receiving half that has taken any prefix of what a matching sending half sent agrees with it, for XOR and AES alike |
| `LayerStream.TxWriteInv` | Mantids30/Net_Chains/socket_chain_aes.cpp:64-101 | whatever length the transport accepts, what went out is the payload masked at its position, and the buffer is the unused keystream |
| `LayerStream.RxReadInv` | Mantids30/Net_Chains/socket_chain_aes.cpp:37-62 | reads of any length unmask in step, and leave less than one block of keystream buffered |
| `LayerStream.TxHelloInv` | Mantids30/Net_Chains/socket_chain_aes.cpp:110-134 | any fragmentation of the handshake transmission sends exactly the hello |
| `LayerStream.RxHelloInv` | Mantids30/Net_Chains/socket_chain_aes.cpp:147-179 | any fragmentation of the handshake reception yields the decrypted header and refuses exactly a wrong magic |
| `LayerStream.AllTakenIsAll` | Mantids30/Net_Chains/socket_chain_aes.cpp:37-101 | a receiver that has taken everything has delivered everything |
| `LayerStream.Phase1Twice` | Mantids30/Net_Chains/socket_chain_aes.cpp:129-163 | the phase-1 masking of a header undoes itself for every block size, also one too small for it |
| `Keystream.GrowKeepsStream` | Mantids30/Net_Chains/socket_chain_aes.cpp:50-58 | enlarging the buffer block by block keeps it the unused keystream and stops within one block of the request |
| `Keystream.BufferIsStream` | Mantids30/Net_Chains/socket_chain_aes.h:110-145 | the buffered bytes are the keystream bytes at the current position, whoever generated how many blocks when |
| `AesBytes.StreamByte` | Mantids30/Net_Chains/socket_chain_aes.cpp:206-257 | byte p of the keystream is the cipher's byte p modulo the block size, under the key, with the draws number p over the block size of both engines for an IV |
| `AesBytes.PayloadByte` | Mantids30/Net_Chains/socket_chain_aes.cpp:64-101 | byte i behind the hello is payload byte i XORed with that byte, for the key and the seeds in the header's fields |
| `AesBytes.WireByte` | Mantids30/Net_Chains/socket_chain_aes.cpp:64-101 | the same for what one call hands over, at the position of the call |
| `AesBytes.HelloByte` | Mantids30/Net_Chains/socket_chain_aes.cpp:110-134 | the 128 bytes sent first: the IV as it is, and the header XORed with the cipher under the phase-1 key and that IV, or as it is when blocks are shorter than 112 bytes |
| `AesBytes.HeaderByte` | Mantids30/Net_Chains/socket_chain_aes.cpp:147-166 | the same for the header read |
| `AesBytes.HeaderLayout` | Mantids30/Net_Chains/socket_chain_aes.h:53-75 | the letters IHDR, 16 bytes of seed, 32 of key, zeros |
| `AesBytes.PassesIff` | Mantids30/Net_Chains/socket_chain_aes.cpp:129-169 | a hello passes the peer's magic check under every cipher exactly when both hold the same phase-1 key, or blocks are shorter than a header |
| `Keystream.StallKeepsBuffered` | Mantids30/Net_Chains/socket_chain_aes.cpp:76-84 | a failed block generation leaves the side right for exactly the bytes already generated |
| `LayerStream.WriteWithin` | Mantids30/Net_Chains/socket_chain_aes.cpp:64-101 | a stalled sender's writes within those bytes go out masked as before |
| `SocketChainAes.SideParams.CryptoXOR` | Mantids30/Net_Chains/socket_chain_aes.h:130-145 | XORs the buffer in place and advances, or refuses and touches nothing, exactly when the block is too short |
| `SocketChainAes.SideParams.Reduce` | Mantids30/Net_Chains/socket_chain_aes.h:110-129 | drops exactly the used bytes, or everything |
| `SocketChainAes.SideParams.AppendAESBlock` | Mantids30/Net_Chains/socket_chain_aes.h:95-109 | appends the block behind the buffered bytes |
| `SocketChainAes.SocketChainAES.RegenIV` | Mantids30/Net_Chains/socket_chain_aes.cpp:342-351 | the next IV is the next draw of both engines of the handshake's seed |
| `SocketChainAes.SocketChainAES.Enlarge` | Mantids30/Net_Chains/socket_chain_aes.cpp:75-84 | grows the buffer to cover the request exactly when the cipher yields enough blocks, else reports it with one IV skipped |
| `SocketChainAes.SocketChainAES.PartialRead` | Mantids30/Net_Chains/socket_chain_aes.cpp:37-62 | decrypts in place what the transport delivered; nothing before initialization or on r <= 0; 0 and the raw bytes when the cipher fails |
| `SocketChainAes.SocketChainAES.PartialWrite` | Mantids30/Net_Chains/socket_chain_aes.cpp:64-101 | sends the encrypted data and advances only by what was accepted; passes data through before initialization; 0 and nothing sent when the cipher fails |
| `SocketChainAes.SocketChainAES.PostAcceptSubInitialization` | Mantids30/Net_Chains/socket_chain_aes.cpp:103-186 | succeeds exactly when the cipher yields both phase-1 blocks, 128 bytes could be sent and received, and they decrypt to the magic; what was sent up to a failure, the header read, keystream left over from an earlier attempt included, and the restart of both sides |
| `SocketChainXor.SocketChainXOR.GetXorCopy` | Mantids30/Net_Chains/socket_chain_xor.cpp:67-79 | every byte XORed with the configured one |
| `SocketChainXor.SocketChainXOR.PartialRead` | Mantids30/Net_Chains/socket_chain_xor.cpp:14-38 | unmasks what the transport delivered; an empty buffer is not filled |
| `SocketChainXor.SocketChainXOR.PartialWrite` | Mantids30/Net_Chains/socket_chain_xor.cpp:40-55 | masks what is offered; an empty write is not offered |
| `SocketChainXor.XorLayerIsConstMask` | Mantids30/Net_Chains/socket_chain_xor.cpp:14-79 | the layer is the constant-mask half, and its own inverse |
| `SocketChainXor.XorLayerByte` | Mantids30/Net_Chains/socket_chain_xor.cpp:67-79 | at every position and in whole streams each byte is XORed with the one byte |
| `SocketChain.EveryRunDeliversPrefix` | Mantids30/Net_Chains/socket_chain.cpp:137-262 | any number of XOR and AES layers, any interleaving of pumps and users, and a cipher that may fail in any call of any layer, whose pump or user then stops: what leaves the mirrored chain is a prefix of what was accepted at the top |
| `SocketChain.EveryDrainedRunDeliversAll` | Mantids30/Net_Chains/socket_chain.cpp:232-262 | with nothing in flight at any depth and nothing lost in a stalled read, everything accepted has been delivered |
| `ChainProgress.EveryRunCanFinish` | Mantids30/Net_Chains/socket_chain.cpp:232-262 | every run in which no pump has stopped and both users are at work can be continued until everything accepted is delivered, handshakes at every depth included |
| `ChainProgress.NeverStuck` | Mantids30/Net_Chains/socket_chain.cpp:232-262 | while anything is in flight, some step inside moves a byte, or the user can read one |
| `ChainProgress.StoppedForGood` | Mantids30/Net_Chains/socket_chain.cpp:241-262 | in every run and at every depth nothing passes a pump once it has stopped |
| `ChainProgress.FailureStops` | Mantids30/Net_Chains/socket_chain.cpp:241-244 | a refused or stalled call stops its pump, a partial write does not |
| `SocketChain.DoKeepsInv` | Mantids30/Net_Chains/socket_chain.cpp:232-262 | every pump or handshake step, stalled ones included, at any depth, keeps the invariant and changes neither end's stream |
| `SocketChain.WriteKeepsInv` | Mantids30/Net_Chains/socket_chain.cpp:217-230 | a write at the top adds exactly the accepted bytes to the accepted stream |
| `SocketChain.ReadKeepsInv` | Mantids30/Net_Chains/socket_chain.cpp:202-215 | a read at the top hands over exactly what it adds to the delivered stream |
| `SocketChain.BuildInv` | Mantids30/Net_Chains/socket_chain.cpp:114-153 | a freshly stacked chain satisfies the invariant |
| `Chunks.SearchIsExact` | Mantids30/Memory/b_chunks.cpp:712-764 | on tiled chunks the search returns i exactly when chunk i contains the offset, and nothing exactly past the end |
| `Chunks.Search` | Mantids30/Memory/b_chunks.cpp:734-763 | terminates with a shrinking range, probes only inside it, and only ever returns a chunk that contains the offset |
| `Chunks.Probe` | Mantids30/Memory/b_chunks.cpp:752-762 | the uneven midpoint formula stays inside its range |
| `Chunks.ProbeIsMiddle` | Mantids30/Memory/b_chunks.cpp:752-762 | and is the middle of it, rounded down |
| `Chunks.AddedFlat` | Mantids30/Memory/b_chunks.cpp:164-225 | an append adds exactly the reported prefix: all the data, or what the remaining chunks can hold; it tiles exactly when the container did |
| `Chunks.DisplacedFlat` | Mantids30/Memory/b_chunks.cpp:228-268 | a displacement removes exactly the requested prefix across chunk boundaries, whatever the offsets are |
| `Chunks.RecalculatedTiles` | Mantids30/Memory/b_chunks.cpp:701-710 | recalcChunkOffsets tiles exactly when at most one chunk is left |
| `Chunks.DisplaceTilesIff` | Mantids30/Memory/b_chunks.cpp:228-268 | displacing a tiled container keeps it tiled exactly when the last chunk is reached |
| `Chunks.FirstByteFoundIff` | Mantids30/Memory/b_chunks.cpp:701-764 | after a displacement the first byte is found through the offsets exactly when one chunk is left |
| `Chunks.RunTilesIff` | Mantids30/Memory/b_chunks.cpp:79-289 | in every state reached by append, displace, clear and truncate (while tiled), the offsets tile exactly when the container is empty or the search finds position 0 |
| `Chunks.CopiedIsSlice` | Mantids30/Memory/b_chunks.cpp:473-512 | on tiled chunks search and walk copy exactly the slice |
| `Chunks.ChunksForRoom` | Mantids30/Memory/b_chunks.cpp:164-173 | an append goes through whole exactly when the chunks it takes are still free |
| `Chunks.TruncatedFlat` | Mantids30/Memory/b_chunks.cpp:79-124 | truncating a tiled container keeps exactly the first n bytes and the tiling, and fails exactly past the end |
| `Chunks.RunIsFlat` | Mantids30/Memory/b_chunks.cpp:79-289 | every run of append, displace, truncate and clear, truncating only while tiled, is the run on flat bytes |
| `Chunks.RunWithoutDisplaceTiles` | Mantids30/Memory/b_chunks.cpp:79-226 | runs of append, truncate and clear always end tiled |
| `BChunks.Container.Append` | Mantids30/Memory/b_base.cpp:49-77 | refused exactly for empty or oversized requests; otherwise contents, count and report agree |
| `BChunks.Container.Append2` | Mantids30/Memory/b_chunks.cpp:126-226 | the chunk loop is the value-level append |
| `BChunks.Container.Truncate` | Mantids30/Memory/b_base.cpp:114-124 | fails and changes nothing exactly when out of range or not found by the search, else cuts at the chunk found; on a tiled container exactly the prefix is kept |
| `BChunks.Container.Displace` | Mantids30/Memory/b_base.cpp:108-112 | count and contents lose exactly the displaced prefix; tiled afterwards exactly when the last chunk was reached |
| `BChunks.Container.DropChunks` | Mantids30/Memory/b_chunks.cpp:237-263 | the chunk loop drops whole chunks and cuts the next one |
| `BChunks.Container.RecalcChunkOffsets` | Mantids30/Memory/b_chunks.cpp:701-710 | leaves the first chunk at (count - 1) times its size and every other offset alone |
| `BChunks.Container.CopyOut` | Mantids30/Memory/b_base.cpp:387-421 | on a tiled container the requested slice, or a refusal exactly out of bounds; on any container, what the search leads to |
| `BChunks.Container.CopyToBuffer2` | Mantids30/Memory/b_chunks.cpp:445-515 | what search and chunk walk copy, short copies included; on a tiled container the slice |
| `BChunks.Container.ToString` | Mantids30/Memory/b_base.cpp:494-549 | the 8192-byte loop returns the pieces the search leads to, cut off at the first refused; on a tiled container the same slice |
| `BChunks.PiecesMean` | Mantids30/Memory/b_base.cpp:527-547 | one piece up to 8192 bytes, then the rest, nothing after a refused piece |
| `BChunks.Container.CopyToStream` | Mantids30/Memory/b_base.cpp:300-339 | the slice cut at the end of the container, whatever the offsets are |
| `BChunks.Container.StreamChunks` | Mantids30/Memory/b_chunks.cpp:322-365 | the size walk writes exactly the slice |
| `BChunks.InBoundsReadersAgree` | Mantids30/Memory/b_base.cpp:300-549 | inside the container all readers return the same slice |
| `BChunks.SliceReads` | Mantids30/Memory/b_base.cpp:387-549 | the default length reads everything from the offset on, an empty container and the very end included; any other length is refused exactly when it runs over the end or the sum overflows, and read whole otherwise |
| `BChunks.ClampedSliceReads` | Mantids30/Memory/b_base.cpp:300-339 | a stream gets the same, a request over the end cut to exactly what is left |
| `BChunks.Container.Compare2` | Mantids30/Memory/b_chunks.cpp:517-597 | true exactly when the needle occurs at the offset, whatever the chunking and the offsets |
| `BChunks.Container.FindChar` | Mantids30/Memory/b_chunks.cpp:600-699 | the least accepted position in the search space, either case of a letter when the flag is set |
| `BChunks.Container.Find` | Mantids30/Memory/b_base.cpp:628-702 | the least position of the needle that starts in the search space, for every chunking, with every refusal |
| `BChunks.FindWholeContainer` | Mantids30/Memory/b_base.cpp:628-702 | over the whole container that is the first occurrence at or after the offset, or nothing |
| `BChunks.FindMeans` | Mantids30/Memory/b_base.cpp:655-702 | in a search space of its own: the least occurrence that starts in it, or none; the empty needle at 0 |
| `BChunks.FindRefuses` | Mantids30/Memory/b_base.cpp:628-667 | every refusal: bounds, overflowing sums, a space shorter than the needle or over the end |
| `BChunks.HitMeans` | Mantids30/Memory/b_chunks.cpp:602-665 | with the flag the i-th letter in either case and any other byte as itself; without it only the byte itself |
| `Delimiters.DisplacementIsExact` | Mantids30/Memory/subparser.cpp:217-218 | the wrapping displacement never truly wraps: it counts at least one and at most all appended bytes |
| `Delimiters.MultiDisplacementIsExact` | Mantids30/Memory/subparser.cpp:138-168 | the same for the multi-delimiter expression, with the needle the list search picks; a call that finds none leaves none buffered |
| `Delimiters.FirstOfByPriority` | Mantids30/Memory/b_base.cpp:753-766 | the list form of find answers with the first needle of the list that occurs at all |
| `Delimiters.BorderFromTail` | Mantids30/Memory/subparser.cpp:397-428 | the longest possible delimiter start of the whole stream is computed from the retained tail alone |
| `Delimiters.FirstFromTail` | Mantids30/Memory/subparser.cpp:397-398 | the first delimiter of the whole stream is the first one in tail and new bytes |
| `ChunkedDelimiter.EveryFragmentationIff` | Mantids30/Memory/subparser.cpp:380-471 | over the chunked buffer, whatever fresh allocations hold: every fragmentation of every stream ends as the stream demands exactly when the delimiter has at most two bytes and the byte limit is reached before the chunk limit |
| `ChunkedDelimiter.LongWritesAreRight` | Mantids30/Memory/subparser.cpp:380-471 | for every delimiter: writes that leave room for a kept tail and end in a chunk of at least all but one of the delimiter's bytes are handled right |
| `ChunkedDelimiter.CalmIsRight` | Mantids30/Memory/subparser.cpp:380-471 | a fragmentation in which every kept tail lies in the last chunk appended is handled right |
| `ChunkedDelimiter.StepOnTiled` | Mantids30/Memory/subparser.cpp:380-453 | a call on a tiled buffer is the call on flat bytes, and leaves it tiled exactly when the kept tail lies in the last chunk appended |
| `ChunkedDelimiter.ScanIsBorder` | Mantids30/Memory/subparser.cpp:455-471 | on a tiled buffer the tail scan finds the longest possible start of the delimiter, whatever fresh allocations hold |
| `ChunkedDelimiter.NothingLost` | Mantids30/Memory/subparser.cpp:380-453 | in every run, over any chunks: what is reported is a delimiter, and delivered, buffered and left-over bytes are the stream |
| `ChunkedDelimiter.LongDelimiterFails` | Mantids30/Memory/subparser.cpp:422-471 | every delimiter of three or more bytes has a fragmentation that keeps back too much |
| `ChunkedDelimiter.EveryLongDelimiterIsLost` | Mantids30/Memory/subparser.cpp:422-471 | every delimiter of three or more bytes occurs in a stream in which it is not reported, for four or more unless a fresh allocation holds its first three bytes |
| `ChunkedDelimiter.LongDelimiterLost` | Mantids30/Memory/subparser.cpp:422-471 | four or more bytes: written as three single bytes and the rest in any fragments, it is not reported |
| `ChunkedDelimiter.ThreeBytesLost` | Mantids30/Memory/subparser.cpp:422-471 | three bytes: behind its first two bytes and an outsider it is not reported, whatever allocations hold |
| `ChunkedDelimiter.FourBytesLost` | Mantids30/Memory/subparser.cpp:422-471 | a four-byte delimiter written one byte at a time is taken without a refusal and not reported, unless a fresh allocation holds its first three bytes |
| `ChunkedDelimiter.BlankLineLost` | Mantids30/Memory/subparser.cpp:422-471 | CR LF CR LF is one |
| `DirectDelimiter.EveryFlatFragmentation` | Mantids30/Memory/subparser.cpp:380-453 | what the strategy means, on flat bytes: for a non-empty delimiter and a capacity of at least its length no write is refused; without a delimiter delivered ++ retained is the stream and the retained tail the longest suffix that is a proper prefix of the delimiter; with one, exactly the bytes before its first occurrence are delivered and everything behind it is left over |
| `DirectDelimiter.StepWithoutDelimiter` | Mantids30/Memory/subparser.cpp:399-432 | on flat bytes a call without a delimiter keeps the invariant of the retained tail |
| `DirectDelimiter.StepWithDelimiter` | Mantids30/Memory/subparser.cpp:433-452 | a call with one reports the first delimiter of the stream and consumes up to its end |
| `SubParsers.SubParser.ParseDirectDelimiter` | Mantids30/Memory/subparser.cpp:380-453 | the object's chunks, recorded pieces, found delimiter and answer follow the chunked step, the cleared buffer of a refused append included |
| `SubParsers.SubParser.GetLastBytesInCommon` | Mantids30/Memory/subparser.cpp:455-471 | the descending loop over copies out of the container, a failed or short copy leaving the allocation as it was |
| `SubParsers.SubParser.AppendToUnparsedBuffer` | Mantids30/Memory/subparser.cpp:103-134 | takes what fits, refuses a full buffer, clears the buffer and fails when the chunks run out |
| `SubParsers.SubParser.ParseByDelimiter` | Mantids30/Memory/subparser.cpp:182-241 | buffer, recorded token, status and displacement follow the delimiter step, EOF flush included |
| `SubParsers.SubParser.ParseBySize` | Mantids30/Memory/subparser.cpp:243-280 | the same for the size step |
| `SubParsers.SubParser.WriteIntoSubParser` | Mantids30/Memory/subparser.cpp:13-76 | dispatch and end-of-stream flag |
| `Tokenizer.FragmentationIndependent` | Mantids30/Memory/parser.cpp:119-272 | any two ways of cutting the same bytes into non-empty writes that both succeed record the same tokens, end in the same sub-parser and leave the same residue, though not in as many chunks |
| `Tokenizer.DriveIsTokenize` | Mantids30/Memory/parser.cpp:119-272 | a successful write does what one left-to-right split does with buffer and data; nothing is consumed twice or skipped |
| `Tokenizer.DriveSucceedsIff` | Mantids30/Memory/parser.cpp:119-272 | a write succeeds exactly when every append finds its chunks, every token fits its buffer, the protocol does not fail and the call limit suffices |
| `EndOfStream.EofCompletesStream` | Mantids30/Memory/subparser.cpp:182-241 | a stream of delimited tokens, cut in any way that succeeds and ended by an empty write: the residue is the last token, the buffer is empty, and the tokens with the delimiter between them are the stream, each ending at its first delimiter |
| `EndOfStream.EofFlushes` | Mantids30/Memory/subparser.cpp:224-236 | the empty write parses the whole buffer, empty or not, and the verdict on it is obeyed in that same call |
| `EndOfStream.EofAbandons` | Mantids30/Memory/subparser.cpp:243-252 | a sub-parser that waits for a size drops what it has unparsed and the chain goes on |
| `EndOfStream.CallLimitIsExact` | Mantids30/Memory/parser.cpp:119-131 | a write of n empty tokens succeeds exactly when n is at most the limit and one |
| `Tokenizer.OneByteWritesSucceedIff` | Mantids30/Memory/subparser.cpp:122-131 | without a token, writes of one byte succeed exactly up to the limit on chunks, however large the limit on bytes |
| `Tokenizer.TokenizeConcat` | Mantids30/Memory/parser.cpp:251-267 | splitting in two goes is splitting in one |
| `Tokenizer.Drive` | Mantids30/Memory/parser.cpp:119-272 | at most maxTTL+1 sub-parser calls; on success everything is consumed unless the chain has ended, and then the stream is marked finished |
| `Tokenizer.FeedFollowsCut` | Mantids30/Memory/subparser.cpp:182-280 | one call records and consumes the next token of the split, buffers everything, or fills the buffer |
| `Tokenizer.FeedConsumes` | Mantids30/Memory/subparser.cpp:182-280 | a call consumes at least one and at most all offered bytes and leaves no complete delimiter buffered |
| `SubParsers.Parser.ParseData` | Mantids30/Memory/parser.cpp:119-272 | result, state and number of calls of the recursive method |
| `SubParsers.Parser.ParseOnce` | Mantids30/Memory/parser.cpp:139-249 | one sub-parser call and the switch its status asks for |
| `SubParsers.Parser.ChangeToNextParser` | Mantids30/Memory/parser.cpp:179-208 | the chain fails, ends, or goes on with a fresh sub-parser |
| `SubParsers.Parser.Write` | Mantids30/Memory/parser.cpp:68-117 | the call limit, full consumption unless finished, and agreement with the split, on the object |
| `QueryTermination.TerminatesIff` | Mantids30/DB_MariaDB/query_mariadb.cpp:299-308 | for every query and every key list the loop ends exactly unless the empty key is listed, or the placeholder is listed and occurs in the query |
| `QueryTermination.QuestionMarkNeverEnds` | Mantids30/DB_MariaDB/query_mariadb.cpp:305-308 | a listed question mark in a query with one of its own is replaced for ever |
| `QueryTermination.BindMarks` | Mantids30/DB_MariaDB/query_mariadb.cpp:299-308 | on every query on which it ends the loop leaves the text and keys of the calls that find one |
| `QueryTermination.ResultOfApart` | Mantids30/DB_MariaDB/query_mariadb.cpp:299-308 | with keys that cannot meet the placeholder those are the text and keys of one left-to-right longest-match pass |
| `QueryKeys.Query.BindInputVars` | Mantids30/DB_PostgreSQL/query_pgsql.cpp:182-194 | with replacements that no key can start in or run into, numbered ones included, the loop terminates with the query of one left-to-right longest-match pass and its keys in order; the parameter count is the number of keys |
| `QueryKeys.Query.ReplaceFirstKey` | Mantids30/DB/query.cpp:107-146 | replaces the earliest key (last in the list on a tie), records it, and keeps exactly the keys that occur |
| `QueryKeys.Query.FindFirstKey` | Mantids30/DB/query.cpp:111-130 | the search loop |
| `QueryKeys.Query.RemoveKeys` | Mantids30/DB/query.cpp:132-136 | the unused keys go, the order stays |
| `QueryKeys.EarliestIsLongest` | Mantids30/DB/query.cpp:115-130 | on a list in map order the key chosen on a tie is the longest |
| `QueryKeys.ReplacementStaysClean` | Mantids30/DB/query.cpp:138-144 | a replacement that no key can start in or run into completes no new key |
| `QueryKeys.ReplaceProgress` | Mantids30/DB_PostgreSQL/query_pgsql.cpp:182-194 | each replacement, fixed or numbered, advances the pass by one slot |
| `QueryKeys.ScanRestores` | Mantids30/DB/query.cpp:138-144 | writing the keys back over the inserted placeholders restores the query |
| `QueryKeys.PlaceholdersMatchKeys` | Mantids30/DB_PostgreSQL/query_pgsql.cpp:182-199 | for fixed and numbered placeholders alike, as many marks as keys exactly when the query had none of its own, and then the rewritten text and the keys alone restore it |
| `QueryKeys.DriversAreMarked` | Mantids30/DB_MariaDB/query_mariadb.cpp:305-308 | the placeholders of both drivers are such placeholders |
| `QueryKeys.NumberedReads` | Mantids30/DB_PostgreSQL/query_pgsql.cpp:191 | the n-th numbered placeholder is a dollar sign and digits without leading zeros that read as n; no two are alike |
| `QueryKeys.PlaceholderReads` | Mantids30/DB_PostgreSQL/query_pgsql.cpp:182-194 | in the rewritten query the j-th dollar sign, from zero, is followed by the number j |
| `QueryKeys.BeforeIsLexicographic` | Mantids30/DB_PostgreSQL/query_pgsql.cpp:184-188 | the key list is in lexicographic order |
| `Acceptor.EveryRunIsConsistent` | Mantids30/Net_Sockets/acceptor_multithreaded.cpp:66-257 | in every reachable state the per-address map is the census of the client list, both limits hold, no counter saturates, nothing was thrown, a parked unsignalled destructor still has clients, a destructor past its wait has drained list and map |
| `Acceptor.NextKeepsInv` | Mantids30/Net_Sockets/acceptor_multithreaded.cpp:66-257 | every critical section keeps that invariant |
| `Acceptor.AdmitIff` | Mantids30/Net_Sockets/acceptor_multithreaded.cpp:82-103 | a client gets in exactly when the object is not finalized and its address is below its limit; otherwise nothing changes |
| `Acceptor.ServedIff` | Mantids30/Net_Sockets/acceptor_multithreaded.cpp:66-103 | a client that enters or tries again is listed exactly when the object is not finalized and both limits leave room, waits exactly when only the limit on all clients is reached, and touches nobody else |
| `Acceptor.AdmitKeepsCensus` | Mantids30/Net_Sockets/acceptor_multithreaded.cpp:82-119 | admission and refusal keep the census |
| `Acceptor.FinishKeepsCensus` | Mantids30/Net_Sockets/acceptor_multithreaded.cpp:121-135 | finalizing a client takes exactly one off its address and never throws |
| `Acceptor.IncrementDecrement` | Mantids30/Net_Sockets/acceptor_multithreaded.cpp:105-135 | decrementing undoes incrementing short of saturation |
| `Acceptor.NobodyAdmittedAfterFinalized` | Mantids30/Net_Sockets/acceptor_multithreaded.cpp:142-152 | from finalization on, in every run, no client is ever added |
| `Acceptor.LastClientReleasesDestructor` | Mantids30/Net_Sockets/acceptor_multithreaded.cpp:176-189 | the call that removes the last client signals the parked destructor, whose next test passes |
| `Acceptor.PassesIff` | Mantids30/Net_Sockets/acceptor_multithreaded.cpp:185-189 | the destructor passes its wait exactly when it finds the list empty |
| `Acceptor.ServedAndDrained` | Mantids30/Net_Sockets/acceptor_multithreaded.cpp:66-257 | a whole life: served, waited for, finalized, passed |
| `Acceptor.DrainEmpties` | Mantids30/Net_Sockets/acceptor_multithreaded.cpp:242-257 | finalizing the listed clients in any order empties list and map |
| `Acceptor.FinishTwice` | Mantids30/Net_Sockets/acceptor_multithreaded.cpp:242-257 | a repeated finalize changes nothing |
| `Acceptor.MultiThreaded.ProcessClient` | Mantids30/Net_Sockets/acceptor_multithreaded.cpp:82-103 | the object's list, map and answer follow the admission |
| `Acceptor.MultiThreaded.FinalizeThreadElement` | Mantids30/Net_Sockets/acceptor_multithreaded.cpp:242-257 | removal, answer and the notification when the list becomes empty |
| `Acceptor.MultiThreaded.IncrementIPUsage` | Mantids30/Net_Sockets/acceptor_multithreaded.cpp:105-119 | counts up, saturating |
| `Acceptor.MultiThreaded.DecrementIPUsage` | Mantids30/Net_Sockets/acceptor_multithreaded.cpp:121-135 | counts down, erases at one, throws when absent |
| `Base64Obf.RoundTripIff` | Mantids30/Helpers/encoders.cpp:17-93 | with the same seed the decoder gives the bytes back exactly when there are fewer than 0x6000_0000 of them |
| `Base64Obf.DecodedInverts` | Mantids30/Helpers/encoders.cpp:33-65 | the group arithmetic inverts the encoding of section 4 of RFC 4648, short last groups included |
| `Base64Obf.SymbolSpells` | Mantids30/Helpers/encoders.cpp:15 | the alphabet |
| `Base64Obf.IndexMeans` | Mantids30/Helpers/encoders.cpp:33-36 | a character is looked up at its place in the alphabet, any other as 255 |
| `Base64Obf.SymbolsMeans` | Mantids30/Helpers/encoders.cpp:26 | the decoder reads the longest run of alphabet characters the text begins with |
| `Base64Obf.DecodedLength` | Mantids30/Helpers/encoders.cpp:29-66 | three bytes for four symbols, one less than the symbols of a short last group, for any text |
| `Base64Obf.SextetsAreBits` | Mantids30/Helpers/encoders.cpp:71-89 | four symbols stand for the same 24 bits as three bytes |
| `Base64Obf.TestVectors` | Mantids30/Helpers/encoders.cpp:71-89 | four test vectors of section 10 of RFC 4648 |
| `Base64Obf.ObfuscatedByte` | Mantids30/Helpers/encoders.cpp:83-86 | the i-th byte the text stands for is the i-th byte under the i-th draw |
| `Base64Obf.OtherSeed` | Mantids30/Helpers/encoders.cpp:17-93 | with another seed every byte comes back under both draws |
| `Base64Obf.DecodeFromBase64Obf` | Mantids30/Helpers/encoders.cpp:17-69 | the collecting loop and the remainder decode the leading symbols, unless they overflow the int index |
| `Base64Obf.EncodeToBase64Obf` | Mantids30/Helpers/encoders.cpp:71-93 | the obfuscation loop in front of the library encoder |
| `UrlEncoding.RoundTripIff` | Mantids30/Helpers/encoders.cpp:345-394 | fromURL inverts strict toURL exactly on bytes below 0x80 |
| `UrlEncoding.EncodedCharMeans` | Mantids30/Helpers/encoders.cpp:447-528 | strict: letters and digits as they are; otherwise printable characters but the double quote; all else a percent sign and two capital hexadecimal digits, the first zero from 0x80 on |
| `UrlEncoding.DecodedMeans` | Mantids30/Helpers/encoders.cpp:372-394 | a percent sign with two hexadecimal digits of either case is the byte they stand for, all else itself |
| `UrlEncoding.ToURL` | Mantids30/Helpers/encoders.cpp:345-370 | fills exactly the precomputed buffer with the encoding, for both encoding types |
| `UrlEncoding.CalcEncodedSize` | Mantids30/Helpers/encoders.cpp:530-545 | the precomputed size is the size written |
| `UrlEncoding.FromURL` | Mantids30/Helpers/encoders.cpp:372-394 | the decoding loop |
| `SafeInt.SafeAdd` | Mantids30/Helpers/safeint.h:7-19 | the sum exactly when representable, an exception exactly otherwise |
| `SafeInt.SafeSub` | Mantids30/Helpers/safeint.h:22-34 | the difference, likewise |
| `SafeInt.SafeMulIsExact` | Mantids30/Helpers/safeint.h:37-57 | the product, likewise, for every width and signedness |
| `SafeInt.GuardsDoNotOverflow` | Mantids30/Helpers/safeint.h:7-57 | the guards' own expressions stay inside the type |
| `SafeInt.DivTruncates` | Mantids30/Helpers/safeint.h:37-57 | the division of the guards rounds toward zero |
| `SafeInt.FitsByHalving` | Mantids30/Helpers/safeint.h:97-152 | the limits are those of two's complement, for every width |
| `SafeInt.InRange17IsExact` | Mantids30/Helpers/safeint.h:97-152 | exact for every pair of widths and signs, with every limit cast in range |
| `SafeInt.SafeCastOr` | Mantids30/Helpers/safeint.h:83-91 | the value when it fits, the default otherwise |

## Left out

- Strategies MULTIDELIMITER as a tokenizer (picks by list priority), DIRECT, CONNECTION_END and VALIDATOR
  (not implemented), an empty delimiter, and writes after EOF.
- A `parse()` that changes its own sub-parser's strategy, size or delimiter: the displacement after a token
  would then use the new delimiter's length (Mantids30/Memory/subparser.cpp:214-218).
- Containers: memory-mapped spill, prepend, runs that go on after truncating an untiled container, `B_Ref`
  windows, case-insensitive search, `B_Base::compare`, and a maximum chunk size of zero.
- Acceptor: limits that change while running, accept loops and socket shutdown, and the lifetime of a
  detached client thread after it has released the mutex.
- AES endpoints whose phase-1 keys or block sizes differ, and users of a chain who go on after a stalled call
  (for one layer `AgreementSurvivesIff` says what that costs).
- Socket chains: shutdown propagation and the opposite direction, which is the same arrangement mirrored.
- QueryKeys.Query.BindInputVars: numbered placeholders that a key could start in or run into, such as a key of
  digits, whose loop may end or not depending on the numbers reached.
- `safe_div`; URL decoding of QUOTEPRINT text, whose percent signs are not escaped.
- Database drivers, TLS, HTTP, JSON, JWT, logging, configuration and network interfaces.
