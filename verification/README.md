# Verified model of fbz

fbz compresses and decompresses bzip2, DEFLATE and LZ4 with its own encoders and decoders, and decodes in parallel by
speculation. This project models those codecs and schedulers in Dafny and proves what they are for: that every encoder's
output decodes to its input, and that every parallel decoder agrees with the serial one.

Each format has a specification of what its bits or bytes mean: bit strings most significant bit first for bzip2 (`BitStream`,
`BitReading`), least significant first for DEFLATE (`LsbStream`, `InflateTable`), bytes for LZ4 (`Lz4Block`). Decoders are
methods over arrays and cursors that are proved to follow the specification on every input; encoders are methods whose output
is proved to have the plain bytes as its meaning. Round trips then join the two through the specification, never through
a shared implementation.

What the specifications accept is proved in turn against a written-out form of each format, in both directions: bits or bytes
have a meaning exactly when they are laid out as the format says, and then it is the meaning the layout has
(`Bzip2Format.StreamsExactly`, `DeflateFormat.StreamExactly`, `Lz4Format.FramesExactly`, `IndexFormat.PayloadExactly`). Tables and
checksums, which encoders and decoders share, are pinned by closed forms and by arithmetic (`DeflateTables`, `Polynomials`).

* **bzip2, encoding**: run lengths (`Rle1`), suffix array by induced sorting (`Lex`, `SuffixOrder`, `Buckets`, `InducedSorting`,
  `Naming`, `SaIs`), Burrows-Wheeler transform (`Bwt`), move-to-front symbols (`Mtf`), optimal length-limited codes
  (`PackageMerge`, `Canonical`, `Coding`), bits (`BitWriting`, `MoveToFront`, `CodeLengths`, `SymbolMap`, `SymbolStream`),
  blocks and streams (`BlockCodec`, `Bzip2Encoder`, `Crc`, `Polynomials`).
* **bzip2, decoding**: tables with lookup and fallback (`Huffman`), the serial decoder (`Bzip2Stream`), the format in both
  directions (`BlockForms`, `SymbolForms`, `Bzip2Format`), marker scan (`Scan`),
  speculation at level 9 (`BlockLevels`), assembly (`Assemble`, `MarkerDecoding`), index file (`SeekIndex`, `IndexFormat`) and random access
  (`IndexedReading`).
* **DEFLATE, decoding**: block grammar and readers (`DeflateBlocks`, `InflateTable`, `InflateReader`, `FixedCode`), the format in both
  directions (`RunCodedLengths`, `DynamicHeader`, `DeflateTables`, `DeflateFormat`), operations on
  a window (`Inflate`, `History`), the serial decoder (`SerialInflate`), and the speculative one: decoding without history
  (`MarkerOutputs`, `Segments`), resolution (`Resolution`), coordination (`SegmentChain`, `ParallelInflate`).
* **DEFLATE, encoding**: match finding (`MatchFinder`, `Tokenize`), code lengths (`HuffmanLengths`), codes and blocks (`DeflateCodes`,
  `DynamicHeader`, `DeflateEncode`, `DeflateSegments`), the streaming encoder (`DeflateEncoder`).
* **LZ4**: blocks (`Lz4Block`, `Lz4Encode`), frames (`Lz4Frame`, `Lz4Encoder`), the format in both directions (`Lz4Sequences`,
  `Lz4Format`).
* **Scheduling**: byte budget and job life cycle (`Scheduler`), delivery by key (`OrderedDelivery`), streaming pool (`Streaming`).

Threads, channels and locks are atomic steps: a result may arrive at any time, and a job's value is computed by the same
sequential method as in the serial path. The bzip2 checksum is modelled in full; the gzip CRC-32 is carried as the bytes it
covers; XXH32 and BLAKE3 are parameters, whatever they compute. The DEFLATE boundary finder is a parameter too: any
proposal must be safe. Integers are unbounded, with the widths of the source kept where they decide something: 16-bit codes, 32-bit fields,
8-bit tree depths, field widths of the index file.

`dafny verify dfyconfig.toml` checks everything.

Three things that the code does and its description does not say:

* With more than one thread, bzip2 input must not be empty and may not have more marked positions than one per 16 bytes plus 64
  (`src/decode.rs:122`, `src/format.rs:36`); the serial decoder has neither restriction. `MarkerDecoding.DecompressToSink`
  states exactly when each succeeds, and `MarkerDecoding.EmptyInput` gives the smallest difference.
* The parallel DEFLATE decoder ends on a whole byte after a final block (`src/gzip.rs:272`), the serial one on the last bit;
  `ParallelInflate.DecompressStream` compares end positions rounded up to bytes.
* In parallel, a DEFLATE stream is refused when one of its chunks after the first decodes to more than 8 MiB (`src/gzip.rs:505`),
  though the serial decoder accepts it; a first chunk that large sends the stream to the serial decoder instead.
  `ParallelInflate.Manageable` is the exact condition.

## Model

| member | source | states |
|---|---|---|
| SaIs.Sais | src/bz2_encode/bwt.rs:52-115 | for every string of symbols below k that ends in a unique smallest 0, the result is its suffix array: every position once, suffixes in strictly increasing order |
| SaIs.Classify | src/bz2_encode/bwt.rs:117-126 | types follow the right-to-left recurrence, and for a sentinel string true marks exactly the suffixes smaller than the next one, false the larger ones |
| SuffixOrder.TypeMeaning | src/bz2_encode/bwt.rs:117-126 | the recurrence decides the order of neighbouring suffixes, in both directions |
| InducedSorting.Finish | src/bz2_encode/bwt.rs:158-187 | when both induction scans are over every position has its slot and the array is sorted by induced key |
| SaIs.LmsSubstrEq | src/bz2_encode/bwt.rs:190-203 | the loop decides whether the two LMS bodies have equal values and boundaries, the value at the closing LMS position not being compared |
| Naming.ReducedOrder | src/bz2_encode/bwt.rs:89-101 | the suffix order of the name string is the suffix order of the LMS positions, ties in the uncompared last character falling through to the next symbol |
| SaIs.Name | src/bz2_encode/bwt.rs:73-88 | equal names only for matching bodies and smaller names only for strictly smaller keys, each stored at half its position |
| Bwt.Transform | src/bz2_encode/bwt.rs:24-48 | the last column and origin are those of the sorted rotations of any non-empty block, periodic ones included |
| Bwt.Link | src/decoder.rs:240-246 | the counting-sort pass packs bytes and links into one array, the links being the permutation that sorts the last column stably |
| Bwt.InverseOfTransform | src/decoder.rs:250-256 | walking the links from the origin gives the block back, whichever of several equal rotations the origin names |
| Bwt.LinksUnique | src/decoder.rs:240-246 | a last column has one link permutation only, for arbitrary input |
| PackageMerge.PackageMerge | src/bz2_encode/huffman.rs:142-211 | for all weights with 2^limit >= m every length is in 1..limit, the Kraft sum is exactly one, and no length-limited code has smaller weighted cost |
| PackageMerge.LowerBound | src/bz2_encode/huffman.rs:166-193 | the k cheapest coins of a level never weigh more than the part of any code worth k at that level |
| Canonical.PrefixFree | src/bz2_encode/huffman.rs:216-231 | no canonical code word is a prefix of another |
| Canonical.FitsIsKraft | src/decoder.rs:65-112 | canonical codes fit at every length exactly when the lengths satisfy the Kraft inequality |
| Coding.CanonicalCodes | src/bz2_encode/huffman.rs:216-231 | codes are assigned in order of length, then symbol |
| Coding.AssignSelectors | src/bz2_encode/huffman.rs:84-103 | every group of 50 symbols gets the first cheapest table |
| Coding.AssignedIsLeast | src/bz2_encode/huffman.rs:84-103 | no other choice of selectors costs fewer bits |
| Coding.Build | src/bz2_encode/huffman.rs:51-81 | tables are complete optimal codes for the groups that the last pass gave them, and selectors are cheapest for those tables |
| Huffman.Build | src/decoder.rs:65-112 | a table is built exactly when all lengths are in 1..20 and the code does not overflow; lookup table and fallback then both decode that code |
| Huffman.Decode | src/decoder.rs:115-134 | lookup table, fallback and truncation together are canonical prefix decoding of every bit string |
| BitWriting.BitWriter.WriteBits | src/bz2_encode/bitwriter.rs:18-28 | exactly the low n bits of the value are appended |
| BitWriting.BitWriter.WriteBuffer | src/bz2_encode/bitwriter.rs:50-57 | exactly the first bit_len bits of the buffer are appended at any alignment |
| BitWriting.BitWriter.Drain | src/bz2_encode/bitwriter.rs:47-47 | drained bytes and what is left are the bits written before |
| BitReading.Bits.Peek | src/decoder.rs:26-41 | the next count bits as a number, or truncation, without moving |
| MoveToFront.SelectorsRoundTrip | src/bz2_encode/huffman.rs:235-246 | selectors written as move-to-front positions in unary read back |
| MoveToFront.ReadSelectors | src/decoder.rs:168-177 | reads what the parse says, with its errors |
| CodeLengths.TablesRoundTrip | src/bz2_encode/huffman.rs:248-265 | delta-coded code lengths read back |
| CodeLengths.ReadTables | src/decoder.rs:179-192 | reads what the parse says, with its errors, and builds a decoding table for each |
| SymbolMap.MapRoundTrip | src/bz2_encode/mod.rs:31-43 | the two-level map of used bytes reads back |
| SymbolMap.ReadSymbolMap | src/decoder.rs:151-158 | reads what the parse says, with its errors |
| Mtf.Encode | src/bz2_encode/mtf.rs:38-77 | the symbols of the block: move-to-front positions with zero runs in bijective base two, then end of block |
| Mtf.SymbolsRoundTrip | src/decoder.rs:205-236 | feeding those symbols to the run accumulator and move-to-front list of the decoder gives the block, for every block within the limit |
| SymbolStream.SymbolsParse | src/decoder.rs:205-212 | code words written group by group decode to exactly the symbols, stopping at the end-of-block symbol |
| SymbolStream.ReadSymbols | src/decoder.rs:194-236 | the decoding loop follows the symbol parse and counts the bytes |
| Rle1.ExpandChain | src/bz2_encode/rle1.rs:17-60 | expanding the run-length form of any chain of groups gives the raw bytes |
| Rle1.ExpandBound | src/decoder.rs:248-271 | n bytes never expand beyond n/5*259 + n%5 |
| Rle1.BlockExpands | src/decoder.rs:248-271 | for a block within the limit the overflow checks never fire and the output is its plain bytes |
| Rle1.ExpandAll | src/decoder.rs:248-271 | every byte string is groups, and perhaps four equal bytes whose count is missing, and expands to what those stand for |
| Rle1.Splitter.Push | src/bz2_encode/rle1.rs:44-60 | a byte lengthens the run or closes it at a change or at 259 bytes |
| Crc.PushRepeat | src/crc.rs:28-34 | the table update is the bitwise checksum of the repeated byte |
| Polynomials.ChecksumIsRemainder | src/crc.rs:1-52 | a block has a checksum exactly when its complement is the remainder of dividing its bits and 32 zeros, the first 32 bits complemented, by the generator polynomial of degree 32 |
| Polynomials.RemainderUnique | src/crc.rs:1-20 | a polynomial leaves one quotient and one remainder |
| Polynomials.StepIsBits | src/crc.rs:36-41 | the table update takes in the eight bits of a byte |
| Polynomials.CombineBits | src/crc.rs:53-55 | on numbers: combining with 0 rotates left by one, combining 0 gives the block value, and every bit of the result is the sum of the two bits without carry |
| BlockCodec.EncodeBlock | src/bz2_encode/mod.rs:45-68 | the bits are the block magic and a body that every decoder position, level check and expected checksum accepts as this block |
| BlockCodec.BlockRoundTrip | src/decoder.rs:144-275 | decoding an encoded block gives its plain bytes, its checksum and its length and stops exactly at its last bit |
| BlockCodec.Restore | src/decoder.rs:238-275 | the in-place inverse transform, run expansion, limits and checksum are the specified ones |
| BlockCodec.DecodeBlock | src/decoder.rs:144-275 | the decoder follows the block parse on every bit string, errors included |
| BlockLevels.LevelFree | src/decode.rs:177-180 | decoding at level 9 and then checking the length accepts exactly the blocks that the own level accepts, with the same result |
| SymbolForms.FeedExactly | src/decoder.rs:205-236 | the run accumulator and move-to-front list give a block exactly for the symbols of that block, for any list of different bytes |
| SymbolForms.ColumnExactly | src/decoder.rs:194-236 | the bits decode to a last column exactly when they are the code words of its symbols, fifty to a selector |
| BlockForms.TablesOnly | src/decoder.rs:179-192 | whatever is read as code lengths starts from five bits and walks up and down within 1..20 |
| BlockForms.SelectorsOnly | src/decoder.rs:168-177 | whatever is read as selectors names tables by their places in the list, in unary |
| BlockForms.MapOnly | src/decoder.rs:151-158 | whatever is read as a map is sixteen group flags and sixteen bits for each flagged group |
| Bzip2Format.BlockExactly | src/decoder.rs:144-275 | the block decoder accepts exactly the blocks laid out as checksum, zero bit, origin, map, tables, selectors, lengths and code words, within the size of the level and with the checksum of their data, and gives that data |
| Bzip2Format.StreamsExactly | src/decoder.rs:302-336 | exactly the inputs made of streams are accepted: "BZh" and a digit, marked blocks, the end mark and the combined checksum, each stream from a whole byte on; the data is that of the blocks in order |
| Bzip2Stream.DecodeSerial | src/decoder.rs:302-336 | the serial decoder follows the stream parse on every input, errors included; which inputs parse, and to what, is `Bzip2Format.StreamsExactly` |
| Bzip2Stream.StreamStep | src/decoder.rs:302-336 | a compressed stream in place of any prefix of the input adds its plain bytes and nothing else |
| Bzip2Encoder.Encoder.constructor | src/bz2_encode/mod.rs:78-98 | the stream header is written and nothing is buffered |
| Bzip2Encoder.Encoder.CommitGroup | src/bz2_encode/mod.rs:126-132 | a group joins the open block or starts a new one within the block limit; all bytes accepted so far are kept |
| Bzip2Encoder.Encoder.SubmitBlock | src/bz2_encode/mod.rs:117-124 | the open block goes to a worker after enough results are taken in order |
| Bzip2Encoder.Encoder.CommitNext | src/bz2_encode/mod.rs:107-115 | the next block in submission order is appended with its checksum |
| Bzip2Encoder.Encoder.Write | src/bz2_encode/mod.rs:150-153 | any split of the input into writes is accepted: the accepted bytes are the concatenation |
| Bzip2Encoder.Encoder.Finish | src/bz2_encode/mod.rs:134-147 | the output is a whole stream of everything accepted |
| Bzip2Encoder.Compress | src/bz2_encode/mod.rs:158-170 | the output parses as the input for every level, thread count and memory limit that is admitted |
| Bzip2Encoder.RoundTrip | src/bz2_encode/mod.rs:158-170 | compressing and then decoding serially returns the data |
| Scan.ScanRange | src/format.rs:60-84 | exactly the positions in the byte range where a magic stands with its fields in bounds, in order; the zero padding adds none |
| Bzip2Format.CandidatesExactly | src/format.rs:60-84 | a scan lists exactly the positions where 48 bits are the block or end mark and the fields after it are in bounds, with those fields |
| Scan.PrefixFinds | src/format.rs:86-100 | the prefix table lists every shift at which the magic stands |
| Scan.CandidatesJoin | src/format.rs:46-57 | scanning adjacent ranges and appending is scanning their union |
| Scan.ScanWithPool | src/format.rs:35-58 | chunked scanning in waves of any width is one scan, and only inputs with a stream header are scanned |
| Assemble.CollectMarkers | src/decode.rs:116-120 | block and end candidates together in strict order of position |
| Assemble.MarkerAt | src/decode.rs:247-249 | binary search finds the marker at a position exactly when there is one |
| Assemble.BlockMarker | src/decode.rs:176-194 | a speculative decode at level 9 checked against the level is what the serial decoder does at that marker |
| Assemble.Candidates.Take | src/decode.rs:225-233 | the candidate of a marker, prefetched or from whichever worker finished when |
| Assemble.AssembleStream | src/decode.rs:157-195 | one stream is assembled exactly when the serial decoder accepts it, with its bytes and with records that describe them |
| Assemble.AssembleAll | src/decode.rs:149-202 | with truthful and complete markers assembly succeeds exactly when the serial decoder does, with the same bytes and an index that describes them |
| MarkerDecoding.FindMarkers | src/decode.rs:114-122 | the markers are truthful and complete, and are refused exactly beyond the cap |
| MarkerDecoding.PrefetchFirst | src/decode.rs:75-80 | a first block rejected ahead of the scan is one the serial decoder rejects |
| MarkerDecoding.DecodeIndexed | src/decode.rs:110-147 | success exactly when the serial decoder accepts a non-empty input within the marker cap; then the same bytes and an index that describes them |
| MarkerDecoding.DecompressToSink | src/decode.rs:67-83 | for any number of threads the bytes are those of the serial decoder; one thread accepts all it accepts, more threads need a non-empty input within the marker cap |
| MarkerDecoding.EmptyInput | src/format.rs:35-36 | the empty input is accepted by the serial decoder and refused by the scanning one |
| MarkerDecoding.BuildIndex | src/decode.rs:85-102 | the index built describes the decoded text, passes validation, and for sources below 4 GiB fits its field widths |
| MarkerDecoding.BuildSaveLoad | src/index.rs:28-91 | the index that decoding builds survives its file form |
| SeekIndex.Validate | src/index.rs:97-127 | accepts exactly the consistent indexes, which `IndexFormat.ConsistentExactly` shows to be those whose records tile |
| SeekIndex.DescribesConsistent | src/index.rs:97-127 | an index that describes its source passes validation |
| IndexFormat.ConsistentExactly | src/index.rs:97-127 | consistent indexes are exactly those whose starts are the sums of the lengths before them, in source order, every block within its own stream, all adding up to the decoded length |
| SeekIndex.ToBytes | src/index.rs:28-58 | header, records and checksum in the file layout |
| SeekIndex.FromBytes | src/index.rs:60-91 | accepts exactly the files with the right checksum, source and counts and consistent records, and returns what they hold |
| SeekIndex.PayloadBack | src/index.rs:28-91 | what is written is read back |
| IndexFormat.PayloadExactly | src/index.rs:28-91 | bytes are read as an index of a source exactly when they are what is written for it |
| IndexFormat.FirstBytes | src/index.rs:28-33 | every file begins with FBZ2IDX, a zero byte and version 1 |
| SeekIndex.SaveAndLoad | src/index.rs:28-91 | a consistent index survives saving and loading |
| IndexedReading.BlockCache.Get | src/indexed.rs:95-100 | a hit returns the entry and keeps the order duplicate-free, the key set, and the exact byte count within the limit |
| IndexedReading.BlockCache.Insert | src/indexed.rs:102-112 | oldest entries are evicted until the new one fits; the same invariants hold |
| IndexedReading.IndexedReader.BlockNumber | src/indexed.rs:40-43 | the block that covers a position, exactly when the position is inside the text |
| IndexedReading.IndexedReader.ReadBlockPart | src/indexed.rs:45-61 | the slice of the text from the position to the end of the block or of the request, from cache or decoder |
| IndexedReading.IndexedReader.Read | src/indexed.rs:65-75 | exactly the requested slice of the decoded text, whatever the cache holds |
| IndexedReading.IndexedReader.Seek | src/indexed.rs:79-87 | moves to offset, position plus offset or length plus offset when that lies within the text, and refuses everything else without moving |
| IndexedReading.Serve | src/indexed.rs:64-88 | every sequence of seeks and reads is answered as on the bare text; the five lemmas below say what those answers are |
| IndexedReading.SeekFromEnd | src/indexed.rs:79-87 | from any position, seeking n back from the end answers length minus n, and reading n then gives the last n bytes |
| IndexedReading.SeekFromStart | src/indexed.rs:79-87 | from any position, seeking to a place and reading gives the text from there, cut to the request |
| IndexedReading.SeekBack | src/indexed.rs:79-87 | reading, seeking back by as much and reading again gives the same bytes |
| IndexedReading.SeekOutside | src/indexed.rs:79-87 | a target before the start or after the end is refused, and later answers are as if it had not been asked |
| IndexedReading.ReadsJoin | src/indexed.rs:64-75 | reads of any sizes, joined, are one stretch of the text |
| IndexedReading.ServeCompressed | src/indexed.rs:27-30 | from compressed bytes to answers: the text is that of the serial decoder |
| Scheduler.Budget.TryNext | src/pipeline.rs:116-127 | admits the next job exactly when there is room, never passing the limits |
| Scheduler.Budget.Complete | src/pipeline.rs:37-42 | the unretained part of a reservation is given back |
| Scheduler.Budget.Retire | src/pipeline.rs:44-49 | a retained charge is given back once |
| Scheduler.StepKeeps | src/pipeline.rs:16-68 | every enabled step keeps the reserved bytes equal to the charges of admitted, unretired jobs and within the limit, and the active count exact and within its bound |
| Scheduler.RunKeeps | src/pipeline.rs:92-224 | the same in every reachable state of every run |
| Scheduler.ReleasedOnce | src/pipeline.rs:60-172 | along every run each charge is released at most once, and exactly once for a retired job |
| Scheduler.NeverStuck | src/pipeline.rs:72-172 | a consumer that takes keys in order never waits with no worker or channel step enabled |
| Scheduler.RunEnds | src/pipeline.rs:92-224 | no run has more than six steps for each job besides cancelling |
| Scheduler.Execute | src/pipeline.rs:16-58 | driving the budget through any run gives exactly the counters of its states |
| OrderedDelivery.OrderedResults.Take | src/pipeline.rs:73-81 | the result of the key, whatever order results arrive in |
| Streaming.StreamingOrdered.Submit | src/pipeline.rs:244-259 | a job is admitted exactly when there is room and joins the end of the queue |
| Streaming.StreamingOrdered.TakeNext | src/pipeline.rs:261-272 | results come in submission order whichever worker finishes first, and their charges are released |
| History.ExtendMatch | src/history.rs:1-18 | all four branches, the doubling copy included, equal the one-at-a-time overlapping copy |
| MarkerOutputs.MarkerOutput.Copy | src/gzip.rs:230-253 | a copy appends what the one-at-a-time copy over markers and bytes appends, or fails where it would |
| MarkerOutputs.MarkerOutput.TryClean | src/gzip.rs:202-211 | switching to plain bytes changes no symbol of the output |
| Inflate.RunSimulates | src/gzip.rs:188-253 | running any operations after markers and then reading the markers is running them after the true history |
| Inflate.RunExactly | src/gzip.rs:188-253 | the true history lets the operations succeed exactly when they succeed after markers and leave no marker it lacks |
| Segments.ChunkSimulates | src/gzip.rs:265-280 | the same for whole chunks of blocks; a dangling chunk is one the serial decoder fails in |
| Segments.DecodeSegment | src/gzip.rs:265-280 | a chunk decodes as specified from its start bit |
| Resolution.ResolveSymbols | src/gzip.rs:346-367 | markers become the bytes of the true window, or the resolution fails exactly when one reaches before it |
| Resolution.SuccessorWindow | src/gzip.rs:369-380 | always the last 32 KiB of predecessor and chunk |
| Resolution.ResolveSegment | src/gzip.rs:386-392 | the plain bytes of a chunk, hashed over exactly those bytes |
| Resolution.SegmentCommitter.Commit | src/gzip.rs:403-418 | bytes, hash and block records are appended in order at their decoded offsets |
| ParallelInflate.Coordinator.Accept | src/gzip.rs:516-525 | a candidate that starts exactly where the last chunk ended keeps the decoder in step with the serial one |
| ParallelInflate.Coordinator.FallBack | src/gzip.rs:497-513 | so does decoding the chunk again here |
| ParallelInflate.DecompressParallel | src/gzip.rs:452-546 | for every set of candidates and every delivery order there is a success exactly if the chunks after the first chain up within the limit, and then it has the bytes, hash, blocks and end byte of the serial decoder |
| ParallelInflate.DecompressStream | src/gzip.rs:423-546 | on real bits there is a success exactly for the streams that decode and are manageable: decoded serially, or with no chunk after the first above 8 MiB; it agrees with the serial decoder |
| SegmentChain.TaskGoesOn | src/gzip.rs:265-280 | a speculative chunk from where the decoder stands resolves, and lets decoding go on, exactly if decoding it after the true output does, within the limit |
| SegmentChain.FitsExactly | src/gzip.rs:497-525 | the chain holds together exactly when the serial decoder finishes and no chunk, as its report cuts them, adds more than the limit |
| SerialInflate.Emitter.CopyMatch | src/gzip.rs:838-845 | copies from the compacted buffer equal copies from the whole output, and fail exactly where those would |
| SerialInflate.Emitter.FlushPending | src/gzip.rs:847-861 | everything decoded so far is written once, hashed once, and what stays in the buffer is its tail |
| SerialInflate.DecompressSerial | src/gzip.rs:439-450 | the serial decoder reports exactly the specified output, hash, blocks and end, or fails |
| InflateTable.New | src/gzip.rs:704-738 | a table is built exactly for lengths that form a prefix code of at most 15 bits |
| InflateTable.DecodeSymbol | src/gzip.rs:740-750 | the reversed full-width table is prefix decoding of every bit string, the short tail included |
| InflateTable.Bits.Peek | src/gzip.rs:770-783 | the next count bits as a number, or failure at the end |
| InflateReader.ReadBlock | src/gzip.rs:588-681 | a block of any kind is read as its parse says, errors included; which bits parse, and to what, is `DeflateFormat.BlockExactly` |
| RunCodedLengths.ItemsBack | src/gzip.rs:653-680 | every run-coded form of a list of code lengths (single lengths, 16 for 3..6 repeats of the length before, 17 for 3..10 zeros, 18 for 11..138 zeros) reads as that list, up to its last bit |
| RunCodedLengths.ItemsOnly | src/gzip.rs:653-680 | whatever is read as code lengths is a run-coded form of them |
| DynamicHeader.RunCodedOpens | src/gzip.rs:644-675 | a dynamic header with run-coded lengths, of a final block or not, makes the decoder read the symbols after it with the two codes |
| DynamicHeader.DynamicExactly | src/gzip.rs:644-675 | a header gives two codes exactly when its bits announce them, in whatever runs |
| DeflateFormat.BlockExactly | src/gzip.rs:588-642 | the block parser reads exactly the stored, fixed and dynamic blocks of section 3.2 of RFC 1951, with their operations and last bit |
| DeflateFormat.RunTells | src/gzip.rs:824-845 | operations run to exactly the data they tell: a match repeats, byte by byte, what stands at its distance, which is at most 32768 and within the data |
| DeflateFormat.StreamExactly | src/gzip.rs:583-612 | exactly the chains of blocks that end in the first block marked as last decode, to the data they tell, and each block is reported with its kind, bits and bytes |
| DeflateTables.LengthSymbols | src/deflate.rs:7-8 | in closed form: the symbol and extra bits of every length 3..258 |
| DeflateTables.DistanceSymbols | src/deflate.rs:9-11 | in closed form: the symbol and extra bits of every distance 1..32768 |
| DeflateBlocks.MatchRange | src/gzip.rs:623-642 | every match has length 3..258 and distance 1..32768 |
| MatchFinder.MatchLength | src/matchfinder.rs:5-16 | the length of agreement, eight bytes at a time, exact unless the limit is reached |
| MatchFinder.HashChain.Insert | src/matchfinder.rs:56-61 | chains stay descending, so every walk ends |
| MatchFinder.HashChain.BestMatch | src/matchfinder.rs:63-86 | a match that is found is real, within the window and within the length limits |
| MatchFinder.LatestMatch.InsertAndFind | src/matchfinder.rs:30-37 | a candidate agrees for four bytes and lies within the window |
| Tokenize.Tokens | src/deflate_encode.rs:88-121 | running the tokens after the prefix gives the whole buffer, and every match is within the ranges of DEFLATE |
| HuffmanLengths.MergedHeavy | src/deflate_encode.rs:144-150 | a greedily merged tree of height h weighs at least the h-th Fibonacci bound |
| HuffmanLengths.HuffmanLengths | src/deflate_encode.rs:137-164 | terminates, and gives a complete code within the limit for exactly the symbols that occur |
| HuffmanLengths.EnsureTwo | src/deflate_encode.rs:166-176 | at least two symbols occur afterwards and only absent ones were raised |
| DeflateCodes.HuffmanCodes | src/deflate_encode.rs:178-194 | every code is its canonical code with its bits reversed, in 16-bit arithmetic |
| DeflateCodes.FixedSymbol | src/deflate_encode.rs:49-56 | the closed formulas are the canonical words of the fixed code of section 3.2.6 of RFC 1951 |
| DeflateCodes.TokensBack | src/deflate_encode.rs:123-135 | reading the written tokens gives the tokens and stops after the end-of-block symbol |
| DeflateEncode.Frequencies | src/deflate_encode.rs:196-214 | exact symbol counts, raised only where fewer than two symbols occur |
| DeflateEncode.EncodeFixed | src/deflate_encode.rs:123-135 | wherever the bytes stand on a byte boundary they append the plain bytes to the history |
| DeflateEncode.EncodeDynamic | src/deflate_encode.rs:220-259 | the same for the dynamic block with its own codes |
| DynamicHeader.DynamicOpens | src/deflate_encode.rs:237-242 | the header makes the decoder read the tokens with exactly the announced codes |
| DeflateTables.TransmissionOrder | src/deflate_encode.rs:216-241 | in closed form: code length code lengths are sent for 16, 17, 18 and 0, then for 8, 7, 9, 6, 10 and so on outwards |
| DeflateEncoder.EncodeStored | src/deflate_encode.rs:261-272 | the same for stored blocks of at most 65535 bytes |
| DeflateEncoder.EncodeSegment | src/deflate_encode.rs:276-287 | the form chosen encodes the bytes after the dictionary and is no longer than the stored one |
| DeflateSegments.EncodesAfter | src/deflate_encode.rs:322-335 | a segment made with a dictionary continues everything that ends with it |
| DeflateSegments.StreamDecodes | src/deflate_encode.rs:306-312 | segments from an empty history and the final block are a stream of their plain bytes |
| DeflateEncoder.CompressBytesSerial | src/deflate_encode.rs:314-341 | the stream decodes to the input and the checksum covers the input |
| DeflateEncoder.Encoder.SubmitBuffer | src/deflate_encode.rs:368-379 | the buffer goes to a worker and its last 32 KiB become the next dictionary; nothing accepted is lost |
| DeflateEncoder.Encoder.Write | src/deflate_encode.rs:400-410 | any split of the input into writes is accepted |
| DeflateEncoder.Encoder.Finish | src/deflate_encode.rs:387-396 | the stream decodes to everything accepted |
| DeflateEncoder.RoundTrip | src/deflate_encode.rs:415-420 | the serial decoder gives the data back, and so does the parallel one whenever it succeeds |
| Lz4Block.DecompressBlock | src/lz4.rs:157-181 | a block decodes as specified, with overlapping copies and a dictionary, errors included |
| Lz4Block.CopyMatch | src/lz4.rs:142-155 | dictionary part and overlapping part together are the one-at-a-time copy over dictionary and output |
| Lz4Block.WindowSuffices | src/lz4.rs:292-301 | a block decodes the same with its last 65535 or more bytes of history as with all of it |
| Lz4Sequences.BlockExactly | src/lz4.rs:142-181 | with any history a block decodes to a text exactly when it is sequences of literals and matches that tell the text, every match repeating what stands at its offset in the text or the history, and an ending |
| Lz4Encode.CompressBlockFast | src/lz4_encode.rs:51-74 | the block decodes to its input within any maximum that holds it; offsets are 1..65535 and the end of block conditions hold |
| Lz4Encode.CompressBlockHigh | src/lz4_encode.rs:76-104 | the same for the hash-chain search |
| Lz4Encoder.EncodeBlock | src/lz4_encode.rs:110-114 | a compressed or stored block that holds its input, compressed only if shorter |
| Lz4Frame.WindowRolls | src/lz4.rs:292-301 | the rolling history is always the last 64 KiB of the frame |
| Lz4Frame.DecodeLinked | src/lz4.rs:303-314 | linked blocks decode as with the whole frame as history |
| Lz4Frame.DecodeIndependent | src/lz4.rs:225-290 | any batching and any number of threads decode an independent frame as block by block |
| Lz4Format.HeaderBack | src/lz4.rs:71-103 | the header bytes of any flags (block mode, block checksums, 64-bit size, content checksum, four block sizes) read back as exactly those flags |
| Lz4Format.HeaderOnly | src/lz4.rs:71-103 | whatever is accepted as a header is the header of its flags |
| Lz4Format.FrameBack | src/lz4.rs:225-314 | a frame with any flags, linked or independent, whose blocks each decompress to their piece after the pieces before, decodes to the concatenation and is reported as it stands |
| Lz4Format.FramesExactly | src/lz4.rs:343-390 | exactly the concatenations of frames and skippable parts, with at least one frame, are accepted, and the report is what they tell |
| Lz4Frame.Decompress | src/lz4.rs:343-390 | frames and skippable frames give the specified report, or nothing; which bytes those are is `Lz4Format.FramesExactly` |
| Lz4Encoder.Encoder.Write | src/lz4_encode.rs:188-198 | any split of the input into writes is accepted |
| Lz4Encoder.Encoder.Finish | src/lz4_encode.rs:175-184 | the output is one frame of everything accepted |
| Lz4Encoder.RoundTrip | src/lz4_encode.rs:203-214 | compressing and decompressing with any numbers of threads gives the data back |

## Left out

- ParallelInflate.DecompressParallel: taking a result for a key that no job has counts as a failure, where the code would wait for a channel to close; `SegmentChain.JobThere` shows that it never happens in a stream that decodes.
- PackageMerge.PackageMerge: weights are unbounded, where the code adds in 64 bits; its stable library sort is a stable insertion sort.
- HuffmanLengths.Merge: the binary heap is modelled by what it pops, the least entry by frequency and then node number.
- Assemble.CollectMarkers: the unstable library sort and dedup are an insertion sort and a loop.
- SerialInflate.Emitter.FlushPending: 64-bit overflow of the decoded count is not modelled.
- Scheduler.NeverStuck: states that some step is enabled and `Scheduler.RunEnds` that runs are finite; fairness of the operating system's scheduler is not modelled.
- Lz4Frame.Decompress: the report of a failed decode, with the frames before the error, is not kept.
- Bzip2Stream.DecodeSerial: output already written before an error is not kept; error kinds are, their bit offsets are not.
- Output sinks, readers, files, cancellation of a sink, progress callbacks and encode counters for display: no decision depends on them.
- gzip member headers, trailers and concatenated members, ZIP containers, format detection, archive handling, command line and Python bindings.
- Panics inside jobs, poisoned locks and timeouts of condition variables.
- The quality of `find_dynamic_boundary` and `valid_precode_shape`, and compression ratio in general: any proposal and any segment size is correct.
- Checked additions of offsets in 64 bits, which can fail only on inputs that no machine holds.
