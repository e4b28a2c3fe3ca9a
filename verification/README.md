# Verified models of the bzip2 codec and of the cookfs archive state

The project has two parts.

**The bzip2 codec** (`bzip2/`). Every stage is modelled as the program it is, proved against a
specification, and composed into the claim the library exists for: what was compressed can always
be decompressed to the original (`bzip2/README:92-98`).

- *Collecting input* (`InputCollector`, `RunLengthCoding`): the pending run, the block buffer, the
  map of used bytes and the block checksum; the runs are the maximal ones.
- *Sorting* (`BucketSort`, `BucketQuickSort`, `RadixPass`, `PrefixDoubling`, `FallbackSort` over
  `Rotations`): the cyclic rotations of a block, by prefix doubling with header bits.
- *The Burrows-Wheeler transform* (`InverseBwt`, `SmallInverse`): the inverse permutation, the fast
  table, the split table with in-place pointer reversal, and the round trip.
- *Move-to-front* (`MoveToFront`, `Recency`, `MtfProgram`, `SlidingTable`): zero runs in bijective
  base 2, what the numbers say of the characters, symbols written over the pointers still being
  read, and the decoder's 4096-entry sliding table.
- *Huffman coding* (`HuffmanHeap`, `HuffmanSteps`, `HuffmanTree`, `HuffmanLengths`, `ShortestCodes`,
  `CodingChoice`, `CanonicalCode`, `CodeTables`): length construction with its scaling loop, that
  the lengths cost least, the choice of tables, canonical codes and the decoder's walk.
- *The bit stream* (`BitWriter`, `BlockFormat`, `BlockPrinter`, `BlockCompressor`): the buffer and
  every field of a block as it is sent.
- *The decoder as a machine* (`Decoder`, `Resumption`, `LegalStates`, `RunOverflow`, `FieldReading`,
  `SetupReading`, `SymbolReading`, `BlockReading`): at each label it wants some bits or hands out a
  byte; runs of it with limited input and room; the limits it keeps on any bits; the reading of
  every field; and what 32-bit run lengths do to it.
- *The decompressor object* (`DecoderState`, `DecodingTables`, `DecoderRuns`, `Decompressor`,
  `FileReading`): the save area, the arrays, the sliding table and both back ends, with one method
  for each group of labels that loads its locals, goes on where it stopped, and stores them again
  when the input runs out; the calls that hand out bytes; and reading a file in pieces.
- *Whole streams* (`CompressedStream`, `StreamSize`, `StreamRoundTrip`, `CheckedStream`, `Compressor`,
  `PackedSize`, `StreamLayout`, `Refusals`, `BufferToBuffer`): the streaming compressor with its RUN /
  FLUSH / FINISH protocol, how long its streams are and where their fields lie, what a stream must
  be to be accepted, and the end-to-end theorems.

**The cookfs archive state** (`generic/`).

- *The reader/writer lock* (`ReadWriteLock`) as interleaved steps.
- *The page cache* (`PageCache`), *the page index* (`PageIndex`, `PageIndexIO`) and *the page store*
  (`PageStore`) over a file with a position.
- *The directory index* (`FsTree`, `DirectoryTable`, `FsIndex`) with its usage counters, and its
  binary form (`FsIndexIO`, over `BinaryIntegers`).

How the pieces fit: a method that follows a C function is proved against a function on values
(for instance `FallbackSort.BlockSort` against `Rotations.SortedOrder`, `Decompressor.DState.Decompress`
against `Resumption.Run`, `FsIndex.Fsindex.Set` against `FsTree.SetAt`), and the laws are lemmas about
those functions. An object's `Valid` predicate is the invariant every one of its methods keeps, so it
holds after every run of calls. Checksum arithmetic enters as arbitrary functions (`Decoder.Checksum`),
page codecs as an arbitrary pair of which only "what was packed unpacks" is required
(`PageStore.Faithful`), page hashes as an arbitrary 16-byte function.

Some results say exactly where the code does and does not do what a caller might expect:

- `BufferToBuffer.BuffToBuffCompress`: packing reports a full buffer exactly when no complete stream
  of the input fits (all of them are equally long, `PackedSize.PackedAlike`), and a sequence error,
  not a full buffer, exactly when both the input and the output buffer are empty.
- `BufferToBuffer.PackedUnpacks`: unpacking succeeds exactly when there is room for the original.
- `CheckedStream.AcceptedIsChecked`: whatever the bits, nothing is accepted without the checksums of
  just the bytes that were handed out; `Refusals.ForeignIff`: bytes are refused as no stream at all
  exactly if one of the first four is wrong.
- `HuffmanLengths.MakeCodeLengths`: the lengths cost least of all for the frequencies as they are,
  unless these were scaled down, which happens only from a total of Fib(maxLen + 3) on.
- `PageStore.ChosenSaves`: a page is stored packed exactly when packing gives a result and either
  saves more than 16 bytes and at least a twentieth or is always wanted.
- `RunOverflow.ClosedAlikeIff`, `RunOverflow.FitsIff`, `RunOverflow.LongRunVanishes`: run lengths are
  kept in 32 bits without a check. A run is read as it is spelled exactly when its length fits, which
  it does with up to 30 digits or as 31 times RUNA, or when what wraps around is refused as well. A
  run spelled RUNB and 31 times RUNA vanishes and decoding goes on.
- `SetupReading.OverrunIff`: reading the selectors runs past the 18002 entries of their tables
  exactly when the stream says that there are more. `StreamRoundTrip.BlockWithinLimits`: no stream
  that the compressor writes meets either limit.
- `PageIndexIO.AcceptedIff`, `PageIndexIO.FiveBytesAccepted`: the size check of an imported page index
  is made modulo 2^32; it accepts a buffer that does not fit exactly where that makes a turn, which
  needs a count above 159072862.
- `PageIndexIO.DecodesIff`, `PageIndexIO.LevelsLost`: an index entry survives its binary form exactly
  when its small fields fit a byte, its sizes fit 32 bits and its hash has 16 bytes; a level of -1
  comes back as 255.
- `PageIndex.OffsetsAfterSizeIff`: setting a page's size keeps the cached offsets right exactly when
  it is the old size or none of them is after the page.
- `PageCache.Cache.Get`, `PageCache.MinusOneParts`: looking up page -1 finds no page but moves an
  empty slot to the front, so the entries in use no longer stand together, exactly when there is an
  empty slot and an entry in use.
- `FsIndexIO.SameIffSettled`, `FsIndexIO.BlockSetSettledIff`, `FsIndexIO.ResizedComesBackChanged`: an
  index comes back from its bytes unchanged exactly when every file's recorded size is the sum of its
  block sizes and its references are counted; changing a block's size breaks that.
- `FsIndexIO.FromBytes`: an index whose bytes end within its metadata is accepted; the records that
  are not whole are lost without an error.

## Model

| member | source | states |
|---|---|---|
| BufferToBuffer.PackAndUnpack | bzip2/README:92-98 | packing and then unpacking with either back end gives back the input, for every input and block size, whenever packing succeeds; it fails only for a bad block size, on empty input with an empty buffer, or because no complete stream of the input fits the buffer |
| BufferToBuffer.BuffToBuffCompress | bzip2/bzlib.c:1247-1295 | on success the output is a complete stream of the input, made of its maximal runs, and fits the buffer; a full buffer is reported only if every complete stream of the input is longer than the buffer, so never with room for 3 bytes per byte of input and 6500 more; a parameter error exactly for block sizes outside 1..9; a sequence error exactly for empty input and an empty buffer |
| BufferToBuffer.FullBuffer | bzip2/bzlib.c:1279-1291 | a packing that stopped for room is in the middle of a stream: what is out is shorter than every complete stream of the input |
| PackedSize.PackedAlike | bzip2/bzlib.c:1247-1295 | all complete streams of an input at a block size are equally long, whichever sorted order each block used |
| PackedSize.SentBound | bzip2/compress.c:602-667 | what is sent for an input never exceeds 3 bytes per byte and 6500 more, however many blocks |
| PackedSize.SentWithinStream | bzip2/bzlib.c:361-403 | the bytes of the blocks finished so far are no more than those of any complete stream of the input |
| PackedSize.BlocksBound | bzip2/compress.c:602-667 | the bits of any number of blocks, all but the last of them full, are at most 24 for each byte of input and 51532 for the last block's tables |
| StreamSize.BlocksAlike | bzip2/compress.c:239-598 | two blocks made of the same runs take the same number of bits, ties in the sorted order notwithstanding |
| StreamSize.SymbolsAlike | bzip2/compress.c:120-231 | any two sorted orders of the rotations give the same symbols |
| StreamSize.BlockBound | bzip2/compress.c:239-598 | a block takes at most 17 bits a symbol, 6 bits for every 50 symbols, and 51509 bits for its tables and fixed fields |
| BufferToBuffer.BuffToBuffDecompress | bzip2/bzlib.c:1299-1348 | for any bytes and either back end, the output and the outcome are those of one run of the decoding machine; success means that the bytes begin with a stream in which every block carries the checksum of the bytes handed out for it and the trailer their combination; a magic error exactly if one of the first four bytes is not that of a header; BZ_OK without stream end splits into unexpected end and full buffer by the room left; only where the room ends exactly where a corrupt block overruns does the small back end report the room instead |
| BufferToBuffer.PackedUnpacks | bzip2/bzlib.c:1299-1348 | a packed stream unpacks to its original if and only if there is room for it; with less room exactly its beginning comes out and the outcome is a full buffer |
| BufferToBuffer.TruncatedRejected | bzip2/bzlib.c:1336-1343 | a stream cut short by any number of bytes never ends the stream and never yields anything but a beginning of the original; with room to spare the outcome is unexpected end of file |
| CheckedStream.AcceptedIsChecked | bzip2/bzlib.c:817-853 | of any bits whatever: a run that reaches the end of the stream has read a header, blocks, each under exactly the checksum of the bytes handed out for it, and a trailer with exactly the combination of these checksums; the bits up to the end of any block hand out just the bytes of the blocks so far |
| CheckedStream.BodyChecked | bzip2/bzlib.c:824-836 | from any place inside a block of an accepted stream to the next signature: the checksum read is that of the bytes handed out for the block, and the combined checksum goes on with it |
| CheckedStream.EitherSignature | bzip2/decompress.c:222-235 | where a block may begin, an accepted stream has the whole signature of a block or the whole signature of the end |
| StreamRoundTrip.WrongBlockRejected | bzip2/bzlib.c:824-831 | legal blocks followed by one with any other 32-bit number in the place of its checksum: everything up to the end of that block is handed out, and then the stream is a data error |
| StreamRoundTrip.WrongTrailerRejected | bzip2/bzlib.c:841-850 | a stream of legal blocks with any other number for the combined checksum: all of the input is handed out, and then the stream is a data error |
| Refusals.ChangedChecksumRefused | bzip2/bzlib.c:830-831 | a packed stream in which bytes 10 to 13 and nothing else were changed is a data error, after something, and nothing but a beginning of the original, was handed out |
| Refusals.ForeignIff | bzip2/decompress.c:197-209 | bytes are refused as no stream at all if and only if one of the first four is there and not that of a header |
| LegalStates.AlwaysWithinLimits | bzip2/decompress.c:206-485 | wherever a run stops, on any bits at all: block size 1..9, origin within its first limit, some byte in use, 2..6 tables, 1..18002 selectors each of a table there is, a length of 1..20 for every symbol of every table, each group read with the table its selector names, never more characters than the block size allows, and the origin among them |
| LegalStates.NextLawful | bzip2/decompress.c:206-485 | no step on any bits leads out of these limits |
| StreamLayout.FirstBytes | bzip2/compress.c:621-634 | what is packed from a non-empty input begins with BZh, the digit of the block size and the block signature |
| StreamLayout.FirstChecksum | bzip2/compress.c:636-637 | bytes 10 to 13 of a packed stream are its first block's checksum |
| StreamLayout.EmptyPacked | bzip2/compress.c:656-666 | an empty input has exactly one packed form, the 14 bytes of header, end signature and a combined checksum of 0 |
| StreamRoundTrip.DecompressCompress | bzip2/README:92-98 | for every sequence of legal blocks, the machine started on the stream's bits hands out exactly the input, reaches stream end, and leaves what follows the stream untouched |
| StreamRoundTrip.DecompressInPieces | bzip2/decompress.c:593-620 | the same for the stream cut into calls with any input chunks and any output room: each stage has handed out a beginning of the input, and the rest completes it |
| StreamRoundTrip.BlockWithinLimits | bzip2/bzlib_private.h:402-403 | no block that the compressor may write has more selectors than the decoder's tables hold or a run whose length does not fit 32 bits, so that its runs are read exactly |
| StreamRoundTrip.BlockDecodes | bzip2/decompress.c:222-558 | from one block header to the next the machine consumes exactly the block's bits, hands out exactly the input it was collected from, and combines its checksum |
| StreamRoundTrip.BlocksDecode | bzip2/bzlib.c:817-853 | the same for any number of blocks, with the combined checksum of all of them |
| StreamRoundTrip.SetupReads | bzip2/decompress.c:222-347 | the machine recovers checksum, origin, symbol map, selectors and code lengths from the bits that the compressor writes for them, and stands before the first symbol |
| StreamRoundTrip.BlockSymbolsRead | bzip2/decompress.c:349-479 | reading the coded symbols of a block ends with its numbered last column |
| StreamRoundTrip.LastColumnLookedUp | bzip2/decompress.c:470-473 | looking the numbers up in the symbol map gives the last column of the sorted rotations |
| StreamRoundTrip.TrailerReads | bzip2/decompress.c:562-586 | the trailer with the right combined checksum leads to stream end |
| StreamRoundTrip.WrongChecksumFails | bzip2/bzlib.c:824-831 | one block with any other checksum: the same input is handed out, the block's bits are consumed, and the block is refused |
| StreamRoundTrip.WrongTrailerFails | bzip2/decompress.c:562-586 | a trailer with any other combined checksum is refused |
| Compressor.EState.constructor | bzip2/bzlib.c:148-211 | a new compressor is running, holds no input and has room in its block |
| Compressor.EState.Compress | bzip2/bzlib.c:407-461 | over any sequence of RUN, FLUSH and FINISH calls: input consumed plus input left is unchanged, output is only appended to, what is in finished blocks plus what is held is the input consumed; which status each mode and action give, and the mode afterwards; an error from a running stream exactly when nothing moved; a finished stream is complete and its blocks are the input; a completed flush has all input in finished blocks; while finishing, how the input is cut into blocks never changes and a call short of the end leaves bytes of the stream to hand out; nblock never exceeds nblockMAX + 9 |
| Compressor.EState.HandleCompress | bzip2/bzlib.c:361-403 | the loop of output and input halves terminates and comes to rest only for want of room or input, after a completed flush, or at the end; progress is reported exactly when something was taken or handed out |
| Compressor.EState.CompressBlock | bzip2/compress.c:602-667 | the held block joins the finished ones with exactly its format's bits; header before the first block, trailer and zero padding after the last; no input is lost |
| Compressor.EState.AddBlock | bzip2/compress.c:604-653 | a non-empty block is sent as a legal block and the combined checksum follows |
| Compressor.EState.EndStream | bzip2/compress.c:657-666 | after the trailer the bytes are the whole stream followed by fewer than 8 zero bits |
| Compressor.EState.NewBlock | bzip2/bzlib.c:117-126 | an empty block starts; the pending run, the output handed out and the finished blocks stay |
| Compressor.EState.CopyOutput | bzip2/bzlib.c:334-356 | hands out the next compressed bytes until room or bytes run out |
| Compressor.EState.CopyInput | bzip2/bzlib.c:289-329 | takes input until the block is full or the input (in a flush or finish: the input expected) is used up; nothing is lost |
| Compressor.EState.TakeByte | bzip2/bzlib.c:302-306 | one byte moves from the input to what is held |
| Compressor.EState.OutputHalf | bzip2/bzlib.c:369-380 | the output half of a round: stops only at rest, else a fresh block is being collected |
| Compressor.EState.InputHalf | bzip2/bzlib.c:382-398 | the input half of a round: takes input if there is any and room for it, compresses a full or final block |
| Compressor.EState.RestedFor | bzip2/bzlib.c:446-461 | at rest with something still to do, the output room is used up |
| Compressor.EState.WaitsForRoom | bzip2/bzlib.c:451-458 | a finish that is not over rests with bytes of its stream still to hand out |
| Compressor.EState.PlanWhenOver | bzip2/bzlib.c:382-398 | a block that is full with more input to come, or the last one, is the next of the blocks planned |
| Compressor.BlocksMore | bzip2/compress.c:602-667 | appending a block appends its bits, its input and its checksum |
| InputCollector.Collector.AddChar | bzip2/bzlib.c:260-284 | the input held grows by exactly the byte added, block and pending run together; the byte prolongs the pending run or starts a new one, so that neighbouring runs always differ in their byte unless the first has 255; the block grows by at most 5 bytes |
| InputCollector.Collector.AddPair | bzip2/bzlib.c:216-247 | the pending run joins the block's runs; block bytes, map of used bytes and checksum describe them |
| InputCollector.Collector.FlushRL | bzip2/bzlib.c:252-256 | no run is pending afterwards and the input held is unchanged |
| InputCollector.Collector.AppendRun | bzip2/bzlib.c:224-246 | a run of n bytes is n copies for n below 4, else four copies and n - 4 |
| InputCollector.Collector.MarkRun | bzip2/bzlib.c:223-238 | exactly the bytes the run puts into the block become used: its character and, for n of 4 or more, n - 4 |
| InputCollector.Collector.PrepareNewBlock | bzip2/bzlib.c:117-126 | the block is empty, nothing is marked used, the checksum starts anew |
| InputCollector.PartsFull | bzip2/bzlib.c:289-329 | of the blocks an input is cut into, every one but the last ends with the very run that fills it; the last may have one run more, a single byte |
| InputCollector.PartsWhole | bzip2/bzlib.c:260-329 | the runs of every block that an input is cut into, and those of all its blocks together, are maximal: neighbouring runs have different bytes unless the first has 255; together they mean the input |
| InputCollector.EqualBytes | bzip2/bzlib.c:275-282 | n equal bytes are collected as n / 255 runs of 255 and one of n % 255 |
| RunLengthCoding.MaximalUnique | bzip2/bzlib.c:260-284 | there is only one way to cut a sequence of bytes into maximal runs |
| PackedSize.PlanIsTheRuns | bzip2/bzlib.c:260-329 | the runs of all blocks of a packed input are the maximal runs of the input |
| InputCollector.RunsSizeIs | bzip2/bzlib.c:216-247 | a block takes at most five bytes for every four of its input |
| RunLengthCoding.BlockMeansInput | bzip2/bzlib.c:216-284 | expanding the block of any chain of collected runs, as the decoder does, gives the input the runs were collected from |
| RunLengthCoding.RunExpands | bzip2/bzlib.c:640-660 | one collected run expands to its copies if what follows does not start with its byte |
| BlockCompressor.SendBlock | bzip2/compress.c:630-653 | what is sent for a collected block is the format of a legal block made of exactly its runs: sorted order, computed tables |
| BlockCompressor.SendValues | bzip2/compress.c:239-598 | tables are chosen for the symbols, and map, selectors, code lengths and coded symbols are sent as the format says |
| BlockCompressor.CodeLastColumn | bzip2/compress.c:120-231 | the symbols of the last column of the sorted rotations |
| BlockCompressor.SortRotations | bzip2/blocksort.c:1031-1088 | a sorted order of all rotations of the block and the row of the unrotated one |
| CodingChoice.ChooseCoding | bzip2/compress.c:266-458 | the table optimiser always ends with a legal choice: 2..6 tables by the number of symbols, one selector per 50 symbols within 18002, lengths 1..17 filling the code space (assertions 3001 to 3003); every table costs least of all for the symbols that the selectors have it code; the choice depends on the symbols alone |
| CodingChoice.StartingTables | bzip2/compress.c:279-317 | the alphabet is cut into consecutive parts inside it, one for each table, that contain every symbol that occurs; a table codes its part for nothing and everything else in 15 bits |
| CodingChoice.NextPart | bzip2/compress.c:287-300 | each part is a range of symbols and its weight is their total; it ends with the first symbol at which its share is reached, or, for every second part between the first and the last, one symbol earlier; the last takes all that is left |
| CodingChoice.Cheapest | bzip2/compress.c:386-401 | the table chosen for a group codes it in no more bits than any other, and is the first that does |
| CodingChoice.Costs | bzip2/compress.c:356-384 | the cost of a group with each table is the sum of its symbols' lengths, far below 16 bits |
| CodingChoice.AssignGroup | bzip2/compress.c:386-434 | one group: its cheapest table, and that table's counts with the group's symbols; no other table codes the group in fewer bits |
| CodingChoice.AssignGroups | bzip2/compress.c:342-435 | every group of 50 gets as selector a table that codes it in no more bits than any other; what is counted for each table is how often it codes each symbol |
| CodingChoice.RebuiltBest | bzip2/compress.c:448-451 | tables built for what was counted cost least for the symbols that the selectors have each of them code |
| CodingChoice.TotalBounded | bzip2/huffman.c:79-80 | raising zero frequencies to 1 adds at most one per symbol of the alphabet |
| HuffmanLengths.MakeCodeLengths | bzip2/huffman.c:63-148 | for every frequency table of 2..258 symbols the scaling loop ends, and the lengths are 1..maxLen with Kraft sum exactly 1; no lengths that fit into the code space cost fewer bits, and a more frequent symbol never has the longer code: for the frequencies themselves, at least 1 each, as long as no scaling was needed, which needs a total of Fib(maxLen + 3), and else for the frequencies as they were scaled; equal frequencies always give equal lengths |
| HuffmanLengths.TreeIsShortest | bzip2/huffman.c:100-121 | the tree that comes of always joining the two lightest gives the cheapest lengths: no lengths that fit into the code space cost fewer bits for the weights it was built from |
| ShortestCodes.Joined | bzip2/huffman.c:100-105 | for any lengths of any symbols there are lengths for the symbols with the two lightest joined that cost less by the weight of the two |
| HuffmanLengths.StageCost | bzip2/huffman.c:100-121 | at every stage of the joining, the roots' distances from the top of the finished tree cost exactly the weights of the nodes still to be made |
| HuffmanLengths.NextJoined | bzip2/huffman.c:101-104 | the two nodes joined next are lighter than any other root |
| HuffmanLengths.HeavierNotLonger | bzip2/huffman.c:79-121 | with lengths that cost least, a symbol that occurs more often never has the longer code |
| HuffmanLengths.DeepWeighs | bzip2/huffman.c:114-123 | a tree deeper than maxLen weighs at least Fib(maxLen + 3), so below that no scaling is needed |
| HuffmanLengths.BuildTree | bzip2/huffman.c:84-112 | merging the two lightest until one is left gives one tree over all leaves whose weight is the total of the frequencies; the weight words stay below 2^31; the parents depend on the weights alone |
| HuffmanLengths.JoinLightest | bzip2/huffman.c:101-109 | a round takes the two lightest roots off the heap and puts their parent on it; the total weight stays |
| HuffmanLengths.PathIsSteps | bzip2/huffman.c:116-119 | the distance to the root is the number of steps along the parent array |
| HuffmanLengths.MeasureDepths | bzip2/huffman.c:114-121 | each length is the distance to the root; too long means the tree is deeper than maxLen |
| HuffmanLengths.JoinNodes | bzip2/huffman.c:103-106 | two roots become children of a new one; everything else stays |
| HuffmanLengths.KraftExact | bzip2/huffman.c:114-121 | the leaf depths of a complete tree use up the code space exactly |
| HuffmanLengths.CutInvariant | bzip2/huffman.c:100-110 | replacing any inner node by its two children keeps the Kraft weight |
| HuffmanLengths.ScalingShrinks | bzip2/huffman.c:142-146 | a scaling round never raises the total weight and lowers it as long as it exceeds twice the number of symbols |
| HuffmanLengths.ScaleWeights | bzip2/huffman.c:142-146 | the scaling loop replaces every weight w by 1 + w / 2 |
| HuffmanLengths.DeepIsHeavy | bzip2/huffman.c:114-146 | a tree deeper than a limit of at least 12 is too heavy to be built from weights 1 and 2, so scaling cannot go on for ever |
| HuffmanTree.Merge | bzip2/huffman.c:101-106 | merging the two lightest roots keeps the tree valid, the total weight, and the Fibonacci bound on depth |
| HuffmanTree.MergedFib | bzip2/huffman.c:29-31 | a merged node of depth d weighs at least Fib(d + 2), because merging always takes the two lightest |
| HuffmanTree.DepthBounded | bzip2/huffman.c:29-31 | a node of block-sized weight has depth at most 32, so the 8-bit depth field cannot overflow |
| HuffmanHeap.UpHeap | bzip2/huffman.c:33-42 | restores the heap after an entry was appended, keeping its nodes |
| HuffmanHeap.DownHeap | bzip2/huffman.c:44-60 | restores the heap after the top was replaced, keeping its nodes |
| HuffmanHeap.TakeLightest | bzip2/huffman.c:101-102 | removes a node that is lightest of all on the heap |
| HuffmanHeap.Add | bzip2/huffman.c:107-109 | puts a new node on the heap |
| HuffmanHeap.TopLightest | bzip2/huffman.c:33-60 | in heap order the top entry is lightest |
| CanonicalCode.PrefixFree | bzip2/huffman.c:152-166 | for lengths with Kraft sum at most 1, no code is a prefix of another symbol's |
| CanonicalCode.CodesFollow | bzip2/huffman.c:152-166 | codes follow one another without a gap: each begins where the code space of the shorter ones, and of the smaller symbols of its length, ends |
| CanonicalCode.CodeFits | bzip2/huffman.c:152-166 | every code fits its length |
| CanonicalCode.DecodeInvertsCode | bzip2/decompress.c:74-102 | walking the limits, bases and sorted symbols that the lengths define, a code followed by any bits leads to its symbol and is consumed exactly |
| CanonicalCode.WalkBeforeCode | bzip2/decompress.c:90-97 | at every shorter length the prefix read lies above the limit |
| CanonicalCode.LookupFindsSymbol | bzip2/decompress.c:98-101 | at the code's own length the table entry is the symbol |
| CodeTables.AssignCodes | bzip2/huffman.c:152-166 | the program assigns every symbol its canonical code |
| CodeTables.CreateDecodeTables | bzip2/huffman.c:170-200 | the program fills limit, base and perm with what the walk needs, for lengths within 1..20 |
| DecodingTables.TablesInvertCode | bzip2/decompress.c:74-102 | walking the arrays as they were filled, from the shortest length on, a code followed by any bits leads to its symbol after exactly its bits, at a place within perm |
| DecodingTables.WalksAlike | bzip2/decompress.c:88-101 | on any bits at all the walk over the filled arrays goes as the walk over what they stand for |
| DecodingTables.PlaceInside | bzip2/decompress.c:98-101 | the place a walk arrives at lies within perm |
| DecodingTables.TablesOf | bzip2/decompress.c:331-347 | the shortest and longest length of a table and its filled limit, base and perm |
| DecodingTables.Extremes | bzip2/decompress.c:333-338 | the shortest and the longest length |
| DecodingTables.UndoMtf | bzip2/decompress.c:302-314 | undoing the selectors' move-to-front coding in place gives the selectors it was made of |
| CodeTables.FillPerm | bzip2/huffman.c:180-183 | perm lists the symbols by length, then by number |
| CodeTables.BuildLimits | bzip2/huffman.c:190-197 | limit holds the largest code of every length in use |
| CodeTables.AdjustBases | bzip2/huffman.c:198-199 | base holds what turns a code of each length into its place in perm |
| MtfProgram.GenerateMtfValues | bzip2/compress.c:120-231 | writing the symbols over the pointer array gives the coding of the last column, because no pointer is overwritten before it has been read |
| MtfProgram.CodeCharacter | bzip2/compress.c:162-205 | one character extends the pending run or flushes it and emits its place in the list |
| MtfProgram.EmitRun | bzip2/compress.c:169-184 | the pending run in bijective base 2 takes no more cells than its length |
| MtfProgram.Promote | bzip2/compress.c:185-203 | one pass finds the character, moves it to the front and reports where it was |
| MtfProgram.MakeMapsEncoder | bzip2/compress.c:106-115 | used bytes are numbered in ascending order |
| MtfProgram.MakeMapsDecoder | bzip2/decompress.c:27-36 | the table lists the used bytes in ascending order |
| MtfProgram.RankLooksUp | bzip2/decompress.c:27-36 | looking up a used byte's number gives back the byte |
| MoveToFront.EncodeDecodes | bzip2/decompress.c:372-479 | decoding what was encoded gives back the characters, for every list, pending run and input within the block limit |
| MoveToFront.DigitsAdd | bzip2/decompress.c:381-389 | the es/N accumulation over the digits of a run adds the run's length times its weight |
| Recency.RankIsRecency | bzip2/compress.c:163-205 | a character met before is coded by the number of different characters met since |
| Recency.RankOfNew | bzip2/compress.c:161-205 | a character not met before is coded by the number of characters that were met or stood before it at first |
| Recency.EncodeIsRanks | bzip2/compress.c:163-229 | the symbols are these numbers one up, runs of zeros replaced by their lengths, and the end mark |
| SlidingTable.Table.MoveToFront | bzip2/decompress.c:417-467 | the sliding table holding a list returns entry nn and afterwards holds the list with that entry first; the base never goes below 0, the repack keeps the list, and there is always room for the next step |
| SlidingTable.Table.Repack | bzip2/decompress.c:456-465 | copying all entries to the top in place overwrites none before it is copied |
| SlidingTable.Table.Reset | bzip2/decompress.c:358-369 | the table starts as the list 0..255 |
| SlidingTable.Table.CloseUpByFours | bzip2/decompress.c:424-437 | moving four cells at a time shifts the entries up by one |
| SlidingTable.SlideStep | bzip2/decompress.c:448-453 | moving one segment down by a cell keeps the segments apart and passes the missing entry to the one below |
| InverseBwt.RoundTrip | bzip2/decompress.c:504-556 | for every block and every sorted order of its rotations, ties of periodic blocks included, walking T^(-1) from the origin emits the block |
| InverseBwt.StepAdvances | bzip2/compress.c:163-167 | one step of T^(-1) moves to a row whose rotation is the next one, up to ties |
| InverseBwt.SamePlace | bzip2/blocksort.c:1083-1088 | any two sorted orders of the rotations tie place by place |
| InverseBwt.BuildFast | bzip2/decompress.c:539-544 | the fast table holds T^(-1) above the last column |
| InverseBwt.AccumulateCounts | bzip2/decompress.c:487-490 | prefix sums of the counts are the bucket starts |
| SmallInverse.ReverseCycle | bzip2/decompress.c:516-525 | reversing pointers along the cycle through the origin terminates and leaves T^(-1) on the whole cycle |
| SmallInverse.BuildForward | bzip2/decompress.c:506-514 | the split table holds T |
| SmallInverse.IndexIntoF | bzip2/bzlib.c:687-698 | the binary search finds the bucket that holds the position |
| SmallInverse.SplitTable.Set | bzip2/bzlib_private.h:458-473 | setting a 20-bit entry in the 16-bit and nibble arrays changes no other entry |
| FallbackSort.Sort | bzip2/blocksort.c:212-329 | terminates with all rotations in non-decreasing order and the block restored, although the class array overwrites it (assertion 1005) |
| FallbackSort.BlockSort | bzip2/blocksort.c:1031-1088 | and the row of the unrotated block is found (assertion 1003) |
| FallbackSort.RefineBuckets | bzip2/blocksort.c:273-306 | a pass at depth H leaves order and header bits right for depth 2H |
| FallbackSort.SortBucket | bzip2/blocksort.c:295-305 | one bucket ends sorted by class with headers exactly where the class changes |
| FallbackSort.AssignClasses | bzip2/blocksort.c:266-271 | every class ranks its rotation by the H characters that start H places further on |
| FallbackSort.Skip | bzip2/blocksort.c:278-290 | scanning bit by bit, then by words, finds the first bit of the other value |
| FallbackSort.MarkBuckets | bzip2/blocksort.c:243-257 | headers mark the one-character buckets, and the sentinel bits alternate past the block |
| PrefixDoubling.BucketRefined | bzip2/blocksort.c:273-306 | sorting a bucket by class and marking changes refines it from depth d to 2d without disturbing the rest |
| PrefixDoubling.CmpDoubled | bzip2/blocksort.c:266-271 | ties on d characters are decided on 2d by the classes |
| PrefixDoubling.HeadOrder | bzip2/blocksort.c:266-271 | bucket headers compare exactly as the first d characters do |
| PrefixDoubling.DeepEnough | bzip2/blocksort.c:311-312 | when the depth reaches the block length or nothing is left tied, the rotations are sorted |
| RadixPass.CountCharacters | bzip2/blocksort.c:231-234 | bucket ends, and a copy of the counts |
| RadixPass.PlaceAll | bzip2/blocksort.c:236-241 | every rotation lands in the bucket of its first character; the counters end as bucket starts |
| RadixPass.PlacedSorted | bzip2/blocksort.c:236-241 | the radix pass sorts the rotations by one character |
| RadixPass.BoundariesAreHeaders | bzip2/blocksort.c:245-245 | bucket starts are exactly where the first character changes |
| RadixPass.RestoreBlock | bzip2/blocksort.c:322-328 | the block is rebuilt from the sorted order and the character counts |
| BucketQuickSort.QSort3 | bzip2/blocksort.c:93-180 | sorts fmap[lo..hi] by class, permutes only that range, and the stack of 100 never overflows for any range of a 31-bit length (assertion 1004) |
| BucketQuickSort.StackedPush | bzip2/blocksort.c:172-178 | pushing the smaller part last keeps slot i of the stack within a 2^i-th of the range |
| BucketQuickSort.HalvedVanishes | bzip2/blocksort.c:109-113 | a 31-bit length cannot be halved 31 times, which bounds the stack |
| BucketQuickSort.Partition | bzip2/blocksort.c:132-162 | equal entries at both ends, smaller and larger between, in place |
| BucketQuickSort.Gather | bzip2/blocksort.c:166-170 | the two block swaps leave smaller, equal, larger in order, and the outer ranges to sort |
| BucketQuickSort.PivotFound | bzip2/blocksort.c:164-164 | if no range is left to sort, all entries share the pivot's class; otherwise both parts are smaller |
| BucketSort.SimpleSort | bzip2/blocksort.c:32-59 | sorts a short range by class, permuting only that range |
| BitWriter.Writer.Put | bzip2/compress.c:54-78 | appends exactly the n bits of v for n up to 25; fewer than 8 bits wait when they go in, so none is lost |
| BitWriter.Writer.FinishWrite | bzip2/compress.c:46-52 | all bits go out, the last byte filled with zero bits |
| BitWriter.Writer.ByteOut | bzip2/compress.c:58-66 | moving a byte to the output loses nothing |
| BitWriter.OrIntoClear | bzip2/compress.c:76-76 | or-ing a number into clear low bits adds it |
| BitWriter.NumberPacked | bzip2/compress.c:73-78 | a number shifted below the waiting bits follows them |
| BitWriter.TopByteLeaves | bzip2/compress.c:58-66 | taking the top byte out leaves the bits after it |
| BlockPrinter.SendMap | bzip2/compress.c:494-511 | the symbol map as the format says |
| BlockPrinter.SelectorValues | bzip2/compress.c:461-478 | the selectors move-to-front coded |
| BlockPrinter.SendSelectors | bzip2/compress.c:517-524 | table count, selector count and the selectors in unary |
| BlockPrinter.SendTables | bzip2/compress.c:528-539 | the code lengths as differences |
| BlockPrinter.AllCodes | bzip2/compress.c:480-492 | every table's codes are its canonical codes; lengths are within 1..20 (assertions 3004, 3005) |
| BlockPrinter.SendSymbols | bzip2/compress.c:544-594 | the symbols in groups of 50, each coded with its selector's table; exactly as many groups as selectors (assertions 3006, 3007) |
| BlockPrinter.PutUInt32 | bzip2/compress.c:83-90 | four bytes, most significant first |
| CompressedStream.SymbolsShape | bzip2/compress.c:120-231 | only the last symbol ends the block, every other is below it, and there are at most as many as characters plus one |
| CompressedStream.ComputedLengthsUsable | bzip2/compress.c:449-451 | computed lengths are a legal table for the decoder |
| Resumption.RunResumes | bzip2/decompress.c:593-620 | of the machine: a stopped run continued with more bits and room equals one uninterrupted run; that the object's save area makes it so for the program is `Decompressor.DState.Decompress` |
| Resumption.PlayIsOneRun | bzip2/bzlib.c:808-858 | of the machine: any script of calls, continued in any way, is one run over all the input |
| Resumption.Resumable | bzip2/bzlib.c:808-858 | of the machine: if one call decodes a stream, every split of its input and output yields the same bytes, the same stream end and the same bits left |
| Resumption.SpareRoom | bzip2/bzlib.c:612-630 | of the machine: more room than a finished run used does not change it |
| RunOverflow.ClosedAlikeIff | bzip2/decompress.c:391-410 | a run is closed as its digits spell it if and only if its length fits 32 bits or what it wraps to is itself too long for the block |
| RunOverflow.FitsIff | bzip2/decompress.c:379-391 | a run's length fits 32 bits if and only if it has at most 30 digits or is 31 times RUNA |
| RunOverflow.LongRunVanishes | bzip2/decompress.c:379-410 | RUNB followed by 31 times RUNA is taken for an empty run, and decoding goes on, where the length spelled is refused |
| RunOverflow.RunWraps | bzip2/decompress.c:379-391 | after any digits the 32-bit sum is the run's length modulo 2^32 |
| RunOverflow.ReadsExactly | bzip2/decompress.c:372-479 | symbols with no run of more than 30 digits are read exactly as unbounded numbers would read them |
| RunOverflow.EncodedRunsFit | bzip2/compress.c:169-184 | the encoder writes no run of more than 30 digits for a block within the size limit |
| Decompressor.DState.Decompress | bzip2/bzlib.c:808-858 | one call on any input, however corrupt, with either back end, continues the machine's run: it writes what the run writes and leaves the bits the run leaves, and whatever the run would still do is what the save area and the arrays stand for; the return code is that of where it rests |
| Decompressor.DState.constructor | bzip2/bzlib.c:492-530 | a new decompressor stands for the machine before the stream's first byte |
| Decompressor.DState.Resume | bzip2/decompress.c:105-620 | the locals are loaded from the save area, the label is re-entered inside its loops, and at the end they are stored: the object goes on as the machine does until input runs out, a block is ready or the stream is over |
| Decompressor.DState.GoOn | bzip2/decompress.c:43-65 | at a label the bits it wants are taken and acted on, or nothing changes because there are too few |
| Decompressor.DState.Step | bzip2/decompress.c:195-586 | what the program does between two labels, on its fields, locals and arrays, is the machine's step |
| Decompressor.DState.MagicLabel | bzip2/decompress.c:197-220 | the stream header, and the back end's tables |
| Decompressor.DState.BlkHdrLabel | bzip2/decompress.c:222-240 | the block signature or the end of the stream |
| Decompressor.DState.BcrcLabel | bzip2/decompress.c:241-249 | the block checksum byte by byte |
| Decompressor.DState.OriginLabel | bzip2/decompress.c:251-264 | the randomisation bit and the origin, refused when too large |
| Decompressor.DState.Mapping1Label | bzip2/decompress.c:266-274 | the flags of the map, then the first group in use |
| Decompressor.DState.Mapping2Label | bzip2/decompress.c:276-284 | the bits of a group, then the next group in use, or the symbol list |
| Decompressor.DState.EnterGroups | bzip2/decompress.c:276-284 | re-entering the two loops over the map finds the next flag that is set |
| Decompressor.DState.CountsLabel | bzip2/decompress.c:286-290 | the numbers of tables and selectors, refused outside their ranges |
| Decompressor.DState.Selector3Label | bzip2/decompress.c:291-300 | a selector's unary digit, or its end |
| Decompressor.DState.StoreSelector | bzip2/decompress.c:299-314 | a selector is stored; after the last their move-to-front coding is undone |
| Decompressor.DState.Coding1Label | bzip2/decompress.c:316-321 | a table's first length |
| Decompressor.DState.Coding2Label | bzip2/decompress.c:319-326 | whether the length changes |
| Decompressor.DState.Coding3Label | bzip2/decompress.c:323-326 | the length goes up or down |
| Decompressor.DState.SettleLength | bzip2/decompress.c:327-329 | a length is stored; after the last of a table the next one, after the last table the decoding tables |
| Decompressor.DState.MakeTables | bzip2/decompress.c:331-347 | limit, base, perm and the shortest length of every table |
| Decompressor.DState.EnterSymbolsLabel | bzip2/decompress.c:349-373 | counts, sliding table and column are set up before the first symbol |
| Decompressor.DState.BeginValue | bzip2/decompress.c:74-89 | a new group of 50 loads its table; no selector left is an error |
| Decompressor.DState.CodeLabel | bzip2/decompress.c:88-101 | a bit of a code: the walk over limit, base and perm goes on or finds the symbol |
| Decompressor.DState.TakeValue | bzip2/decompress.c:375-479 | a symbol is taken as the machine takes it, on the sliding table, the counts and the column |
| Decompressor.DState.TakeRunDigit | bzip2/decompress.c:377-389 | a digit of a run in 32 bits |
| Decompressor.DState.EndRun | bzip2/decompress.c:391-410 | the copies of a run go into the column, or the block is too long |
| Decompressor.DState.CopyRun | bzip2/decompress.c:393-408 | copying stops at the block limit; column and count grow together |
| Decompressor.DState.PutCharacter | bzip2/decompress.c:412-477 | the character found by the sliding table goes into the column |
| Decompressor.DState.FinishColumn | bzip2/decompress.c:481-558 | the end of the block: origin checked, counts summed up, the back end's table built and the first character read |
| Decompressor.DState.EnterFast | bzip2/decompress.c:538-556 | the fast back end's table of the column and its first step |
| Decompressor.DState.EnterSmall | bzip2/decompress.c:504-537 | the small back end's split table, its pointers reversed in place, and its first step |
| Decompressor.DState.EndHdrLabel | bzip2/decompress.c:562-574 | the end signature |
| Decompressor.DState.CcrcLabel | bzip2/decompress.c:575-586 | the combined checksum, compared at the end |
| Decompressor.DState.UnRLEFast | bzip2/bzlib.c:589-681 | the fast back end writes runs until room or block end, as the machine does; reports corruption exactly when the block is overrun |
| Decompressor.DState.UnRLESmall | bzip2/bzlib.c:761-800 | the small back end writes the same, but looks for room before it starts a run |
| Decompressor.DState.HandOut | bzip2/bzlib.c:817-842 | handing out goes on where it stopped; a block whose end is reached is closed, and goes on to the next only if its checksum is the one read |
| Decompressor.DState.EndBlock | bzip2/bzlib.c:823-836 | a block that is out is closed, one that goes on beyond its end is corrupt |
| Decompressor.DState.CloseBlock | bzip2/bzlib.c:824-836 | the checksum of what was handed out is finished; if it is the one read, it joins the combined checksum and the next block header is due, and otherwise the stream is a data error |
| Decompressor.DState.GetSmall | bzip2/bzlib_private.h:475-479 | the small back end's character, found by binary search, and its step are those of T^(-1) |
| FileReading.BzFile.Read | bzip2/bzlib.c:1161-1217 | a call reads what the one run over the whole file writes next, at most as much as asked for; which code it returns, and what that says about the run |
| FileReading.BzFile.ReadMore | bzip2/bzlib.c:1182-1214 | the loop of refilling the buffer and decompressing ends with the request filled, the stream ended, corrupt, or the file used up |
| FileReading.BzFile.Refill | bzip2/bzlib.c:1189-1197 | refilling takes from the file only when the buffer is used up, and loses nothing |
| FileReading.BzFile.Pump | bzip2/bzlib.c:1184-1199 | refilling an empty buffer and one call continue the run over the whole file |
| FileReading.ReadInPieces | bzip2/bzlib.c:1161-1217 | requests of any sizes together read a beginning of one uninterrupted run over the file |
| FileReading.ReadPackedFile | bzip2/bzlib.c:1161-1217 | a packed file read in pieces of any sizes with either back end: always a beginning of the original, never an error, and all of it when the end is reported, which it is once more is asked for |
| FileReading.PiecesOfPacked | bzip2/bzlib.c:1161-1217 | every stage of the run over a packed file has handed out a beginning of the original and is neither failed nor short of input |
| Decompressor.DState.GetBits | bzip2/decompress.c:43-65 | takes the next n bits of buffer and input, or takes nothing if there are too few; the buffer never overflows |
| Decompressor.DState.NewRun | bzip2/bzlib.c:640-660 | starts a run by reading up to five characters ahead with either back end, as the machine does |
| Decompressor.DState.GetFast | bzip2/bzlib_private.h:451-456 | one step through the fast table is one step of T^(-1) |
| DecoderRuns.SaneNext | bzip2/decompress.c:316-347 | whatever was read, code lengths are 1..20 and no request exceeds 20 bits |
| DecoderRuns.BufferFills | bzip2/decompress.c:55-59 | a byte pushed into the 32-bit buffer follows the bits in it |
| DecoderRuns.BufferGives | bzip2/decompress.c:46-51 | shift and mask take exactly the top n bits |
| FieldReading.HeaderReads | bzip2/decompress.c:197-209 | the stream header is read back |
| FieldReading.BlockMagicReads | bzip2/decompress.c:222-235 | the block signature is read back |
| FieldReading.OrigPtrReads | bzip2/decompress.c:253-264 | the 24-bit origin is read back |
| FieldReading.BlockCrcReads | bzip2/decompress.c:241-249 | the 32-bit checksum is read back |
| SetupReading.MapReads | bzip2/decompress.c:266-284 | every symbol map is read back from its bits |
| SetupReading.SelectorsRead | bzip2/decompress.c:286-314 | every selector sequence is read back from its bits |
| SetupReading.OverrunIff | bzip2/decompress.c:291-300 | reading the selectors runs past their tables if and only if the stream says that there are more than 18002 |
| SetupReading.SelectorsUndone | bzip2/decompress.c:302-314 | undoing the move-to-front coding of the selectors |
| SetupReading.TablesRead | bzip2/decompress.c:316-329 | all code lengths are read back from their differences |
| SymbolReading.SymbolsRead | bzip2/decompress.c:372-479 | all symbols are read back across groups, each with its selector's table |
| SymbolReading.CodeReads | bzip2/decompress.c:88-101 | from any prefix of a code, the rest of it leads to its symbol |
| BlockReading.BlockEmits | bzip2/bzlib.c:608-661 | from any run boundary the machine hands out what the rest of the block means and then has its checksum |
| BlockReading.BlockCompared | bzip2/bzlib.c:824-836 | after that the next signature is due, with the combined checksum going on, if and only if the checksum read is that of what was handed out; otherwise the block is refused with all of it handed out |
| BlockReading.StartRunReads | bzip2/bzlib.c:640-660 | reading ahead finds the length of the run and where the next one starts |
| BlockReading.OutputEntered | bzip2/decompress.c:481-556 | a completed column puts the machine before the first character of its block |
| ReadWriteLock.StepKeeps | generic/threads.c:60-139 | every step keeps: counters count holders and waiters, a free lock with sleepers has someone woken |
| ReadWriteLock.RunKeeps | generic/threads.c:60-139 | the same over every interleaving |
| ReadWriteLock.Exclusion | generic/threads.c:60-108 | in every run a writer coexists with no other holder, numLocks is -1 then and at least 1 while someone reads |
| ReadWriteLock.NoLostWakeUp | generic/threads.c:119-139 | in every run, if the lock is free and a request sleeps, some request has been woken and gets the lock when it runs |
| ReadWriteLock.NoDeadlock | generic/threads.c:60-139 | in every run, while any request is under way some step other than a new request can be taken |
| ReadWriteLock.AlwaysServed | generic/threads.c:60-139 | in every state that can be reached, said of where the requests stand and not of the counters: a reader gets the lock if and only if nobody writes, a writer if and only if nobody reads or writes, whoever does not get it sleeps, giving up wakes the writers if any waits and else the readers, and nobody else moves |
| ReadWriteLock.ReadersShare | generic/threads.c:70-83 | any number of readers, coming one after the other while nobody writes, hold the lock together with those there were, and none of them waits |
| ReadWriteLock.RWMutex.LockRead | generic/threads.c:60-87 | the reader's code up to its wait or its share is one step: it gets the lock if and only if no request writes, and otherwise sleeps |
| ReadWriteLock.RWMutex.ResumeRead | generic/threads.c:70-82 | the reader's code after a wake-up is one step: it gets the lock if and only if no request writes, and otherwise sleeps again |
| ReadWriteLock.RWMutex.LockWrite | generic/threads.c:89-108 | the writer's code up to its wait or its lock is one step: it gets the lock if and only if no request reads or writes |
| ReadWriteLock.RWMutex.ResumeWrite | generic/threads.c:99-104 | the writer's code after a wake-up is one step: it gets the lock if and only if no request reads or writes |
| ReadWriteLock.RWMutex.Unlock | generic/threads.c:119-139 | giving up is one step: it wakes all sleeping writers if any writer waits, and otherwise all sleeping readers; that the lock is held follows from the caller holding it |
| PageCache.Cache.Set | generic/pages.c:2138-2211 | a cached page is reweighed and touched; otherwise an empty slot is filled if there is one; otherwise the page evicted is, of all cached, least in weight and then longest untouched; exactly one reference is taken and, on eviction, one released, followed entry by entry |
| PageCache.Cache.Get | generic/pages.c:2094-2131 | the page if cached, which is then the last touched; its weight changes only on request; a miss changes nothing. A lookup of -1 finds no page but moves an empty slot: entries in use that stood together still do if and only if the number was not -1, or there was no empty slot or no entry in use |
| PageCache.MinusOneParts | generic/pages.c:2094-2131 | in a cache of two with one page, a lookup of -1 puts the empty slot before the page |
| PageCache.EmptyFrontIff | generic/pages.c:2108-2119 | moving the first empty slot to the front keeps the entries in use together if and only if there are none |
| PageCache.Play | generic/pages.c:2094-2311 | over any run of lookups, additions, ticks and resizes: what is cached, in what order it was touched and which references are held stay right, and without a lookup of -1 the entries in use stay together |
| PageCache.Cache.Choose | generic/pages.c:2162-2198 | the scan from the end finds an empty slot, or the entry of least weight that stands last |
| PageCache.VictimStands | generic/pages.c:2175-2201 | the victim in terms of pages and the times of their last touch |
| PageCache.Cache.MoveToTop | generic/pages.c:2229-2247 | the entry moves to the front with age 0, the others keep their order |
| PageCache.Cache.TickTock | generic/pages.c:2265-2279 | every cached page stays and is one tick older; one that has been untouched for the maximal age has weight 0, any other keeps its weight |
| PageCache.Cache.SetMaxAge | generic/pages.c:2298-2311 | a negative age is ignored |
| PageCache.Cache.SetCacheSize | generic/pages.c:2629-2658 | the size is brought into 0..256, the cache is empty and every entry has given up the one reference it held |
| PageCache.Cache.IsCached | generic/pages.c:2356-2371 | whether the page is cached, for any number |
| BinaryIntegers.SignedOfBytes | generic/common.c:31-158 | writing a number that fits its two's complement and reading it back |
| BinaryIntegers.BytesOfSigned | generic/common.c:31-158 | reading bytes and writing them back |
| BinaryIntegers.Int2Binary | generic/common.c:71-92 | the integers as big-endian bytes at the place given, nothing else written |
| BinaryIntegers.Binary2Int | generic/common.c:31-60 | the signed integers the bytes stand for |
| BinaryIntegers.WideInt2Binary | generic/common.c:142-158 | one wide integer as eight big-endian bytes |
| BinaryIntegers.Binary2WideInt | generic/common.c:104-130 | the signed wide integer the bytes stand for |
| PageIndex.PgIndex.GetStartOffset | generic/pgindex.c:220-245 | the sum of the compressed sizes of the pages before, whatever was cached; nothing but cached offsets changes |
| PageIndex.PgIndex.GetEndOffset | generic/pgindex.c:210-218 | the same sum including the page |
| PageIndex.PgIndex.AddPage | generic/pgindex.c:365-415 | the entry is appended with its offset unknown (0 for the first), the others are kept when the array grows |
| PageIndex.PgIndex.SetSizeCompressed | generic/pgindex.c:265-272 | one size changes and cached offsets are left as they are: they are right afterwards if and only if the size is the old one or no offset after the page is cached |
| PageIndex.OffsetsAfterSizeIff | generic/pgindex.c:265-272 | cached offsets survive a new size exactly when it is the old one or none of them is after the page |
| PageIndex.PgIndex.SetCompression | generic/pgindex.c:247-256 | two fields of one entry change |
| PageIndex.PgIndex.SearchByMD5 | generic/pgindex.c:274-290 | the first entry from a place on with this hash and size, or none |
| PageIndexIO.Export | generic/pgindex.c:502-550 | a count and six columns; each entry in its places |
| PageIndexIO.Import | generic/pgindex.c:426-500 | refuses exactly the buffers below 4 bytes and those whose size differs from 4 + 27 * count modulo 2^32; otherwise the entries they spell, with every offset filled in, unless the count is above 159072862, when the buffer ends long before them |
| PageIndexIO.AcceptedIff | generic/pgindex.c:445-451 | the check accepts a buffer exactly if its count asks for its size give or take whole turns of 2^32, and one that does not fit exactly if also the count is above 159072862 |
| PageIndexIO.AcceptedIffFits | generic/pgindex.c:445-451 | up to a count of 159072862 the check accepts exactly the buffers that fit; above it none fits |
| PageIndexIO.FiveBytesAccepted | generic/pgindex.c:445-451 | the five bytes 68 4B DA 13 and any other are accepted for 1749801491 entries |
| PageIndexIO.DecodesCarried | generic/pgindex.c:417-424 | what comes back of any entry: level and compression modulo 256, the rest as it was |
| PageIndexIO.LevelsLost | generic/pages.c:2788-2791 | a level of -1, as the C interface may set, comes back as 255 |
| PageIndexIO.DecodesIff | generic/pgindex.c:417-424 | an entry comes back as it was if and only if the form can hold it |
| PageIndexIO.ImportedIsExported | generic/pgindex.c:426-550 | importing an export gives what the form carries of each entry, with offsets equal to the prefix sums |
| PageIndexIO.SaveAndLoad | generic/pgindex.c:426-550 | the same for the two programs run one after the other, for every index below 2^31 bytes |
| PageStore.Pages.PageAddRaw | generic/pages.c:1832-1971 | stored content is found again and nothing grows, hash collisions or not; other content is appended in the form that the settings choose, by which the pages grow by at most its size unless it is always compressed; the index returned holds it; -1 exactly if the archive may not be written and the content is not there; all earlier pages stay |
| PageStore.Pages.PageGet | generic/pages.c:2004-2071 | exactly the bytes added under that index, cached or not, and nothing beyond the pages there are |
| PageStore.Pages.FindStored | generic/pages.c:1844-1923 | the first page with these bytes, if there is one |
| PageStore.Pages.WritePage | generic/pagesCompr.c:791-918 | the page stands at the end of the pages, in the form that the settings choose for it, and the channel at the next page's place; without the setting to always compress it takes at most its own size; nothing before the pages changes |
| PageStore.Pages.Pack | generic/pagesCompr.c:820-886 | what is written means the page under the compression recorded for it; without the setting to always compress it is never larger than the page, and packed only where that saves more than 16 bytes and at least a twentieth |
| PageStore.ChosenSaves | generic/pagesCompr.h:10-12 | without the setting to always compress, a page is stored packed only if that saves more than 16 bytes and at least a twentieth, and with a compression set it is stored as it is if and only if packing declines or misses one of the two bounds |
| PageStore.Pages.ReadPage | generic/pagesCompr.c:492-745 | a stored page is read back as it was, or as it is stored when unpacking is not asked for; whatever is returned under a hash not all zero has that hash |
| PageStore.Pages.GetInt | generic/pages.c:2851-2915 | the page at an index, read from the file |
| PageStore.Pages.AddStamp | generic/pages.c:1670-1713 | the first write puts the signature and eight zero bytes at the end of the file and the data starts after them; any later call changes nothing |
| PageStore.Pages.Approach | generic/pagesCompr.c:799-808 | before a page is written the channel stands where it goes |
| PageStore.Pages.SeekToPage | generic/pagesCompr.c:764-769 | the channel stands at the data offset plus the sizes of the pages before |
| PageStore.Reopen | generic/pgindex.c:426-550 | saving the index and opening the file with it gives an archive with the same pages, whatever levels were recorded |
| PageStore.Landed | generic/pagesCompr.c:902-916 | a page written at the end is one more page in place; the next goes right after it |
| FsTree.SetSucceeds | generic/fsindex.c:1154-1190 | creating succeeds exactly when the parent is a directory and no entry of the other kind is in the way |
| FsTree.SetThenLookup | generic/fsindex.c:1154-1190 | afterwards the path leads to the new entry and every path beside it where it led before; the directories above keep their times and all their names, and the parent gains the new one |
| FsTree.UnsetSucceeds | generic/fsindex.c:1251-1301 | removing fails exactly for the root, a missing entry and, unless recursive, a directory that is not empty |
| FsTree.UnsetThenLookup | generic/fsindex.c:1251-1301 | afterwards nothing is at or below the path and everything beside it is as before; the directories above keep their times and all their names but the one removed |
| FsTree.SetUses | generic/fsindex.c:2011-2020 | creating takes away the references of what was replaced and adds those of the new entry |
| FsTree.UnsetUses | generic/fsindex.c:2033-2035 | removing takes away the references of the whole subtree |
| FsIndex.Fsindex.Set | generic/fsindex.c:1154-1190 | creates or replaces exactly as `FsTree.SetAt` says, frees what it replaced; every usage count stays the number of blocks in the tree that refer to the page |
| FsIndex.Fsindex.Unset | generic/fsindex.c:1251-1301 | removes exactly as `FsTree.UnsetAt` says, with all counts still right; no change on failure |
| FsIndex.Fsindex.SetFile | generic/fsindexCmd.c:673-717 | the set command with a block list: whole triplets, size their sum, references counted |
| FsIndex.Fsindex.SetDirectory | generic/fsindexCmd.c:663-672 | the set command without one |
| FsIndex.Fsindex.SetBlock | generic/fsindex.c:672-693 | one block changes, the old page gives up a reference and the new one gains it, whether or not the entry's blocks are counted; the counts are right afterwards if and only if they are; the file's size does not change |
| FsIndex.Fsindex.Free | generic/fsindex.c:1520-1551 | every counted block in the subtree gives up one reference |
| FsIndex.Fsindex.ModifyBlockUsage | generic/fsindex.c:837-882 | one count changes, also when the table has to grow; negative and aside pages are ignored |
| FsIndex.Fsindex.GetBlockUsage | generic/fsindex.c:811-818 | the number of blocks in the tree that refer to the page, and 0 for negative numbers and pages set aside |
| FsIndex.Fsindex.Find | generic/fsindex.c:1791-1846 | what the path leads to |
| FsIndex.SetOver | generic/fsindexCmd.c:683-717 | filling in an entry after creating it is creating it filled in |
| DirectoryTable.Directory.FindInDirectory | generic/fsindex.c:1971-2128 | find, create, delete and recursive delete act on a map from names to entries whether it is kept as a table or a hash, the switch included; which entry is given up to be freed; childCount is the size of the map |
| DirectoryTable.Directory.ChildtableToHash | generic/fsindex.c:2148-2173 | switching to a hash keeps the map |
| DirectoryTable.Directory.Search | generic/fsindex.c:2047-2057 | the slot of a name, or none |
| DirectoryTable.Directory.FirstFree | generic/fsindex.c:2105-2113 | a table not yet full has an empty slot |
| FsIndexIO.SaveAndRestore | generic/fsindexIO.c:58-170 | an index of any depth comes back with the same tree, times, blocks and metadata, sizes recomputed from the blocks and usage counts right |
| FsIndexIO.SameIffSettled | generic/fsindexIO.c:399-402 | the tree is unchanged if and only if recorded sizes are block sums and all references are counted |
| FsIndexIO.BlockSetSettledIff | generic/fsindex.c:672-693 | changing a block of a settled file leaves it settled if and only if the block's size stays |
| FsIndexIO.TreeSettledIff | generic/fsindexIO.c:399-402 | a settled tree in which one entry is replaced is settled if and only if that entry is |
| FsIndexIO.ResizedComesBackChanged | generic/fsindex.c:672-693 | a file of 100 bytes whose block is then said to have 200 comes back from the saved index with 200 |
| FsIndexIO.RestoredIsNormal | generic/fsindexIO.c:340-409 | the tree restored does not depend on the order in which children were listed |
| FsIndexIO.ToObject | generic/fsindexIO.c:58-79 | header, directories in place, metadata; the change count is reset |
| FsIndexIO.FromBytes | generic/fsindexIO.c:105-170 | refuses exactly what lacks the header; else the tree in the bytes, counted, and its metadata: all of it if and only if there is none or the bytes go on to its end, and otherwise the records that are whole, without an error |
| FsIndexIO.ExportDirectory | generic/fsindexIO.c:194-316 | the children, each once, subdirectories in place |
| FsIndexIO.ImportDirectory | generic/fsindexIO.c:340-409 | the children come back, the offset is right after them, and their references have been added |
| FsIndexIO.ExportMetadata | generic/fsindexIO.c:433-498 | the number of keys, then each key, a NUL and its value under their size |
| FsIndexIO.ImportMetadata | generic/fsindexIO.c:523-556 | the records that lie wholly within the bytes; -1 exactly if one does not |
| FsIndexIO.AllWithin | generic/fsindexIO.c:523-556 | the metadata comes back whole if and only if the bytes go on to its end, or there is none |
| FsIndexIO.WithinIff | generic/fsindexIO.c:540-547 | a record is taken if and only if its last byte lies within the bytes |

## Left out

The bzip2 codec:

- `mainSort`, `mainQSort3`, `mainGtU`: the alternative to the fallback sort. The fallback path is taken for every block; any sorted order decodes (`InverseBwt.RoundTrip`), so the choice only affects which tie is listed first.
- Randomised blocks: the decoding machine stops with its own fault where the source would undo the randomisation. No compressor of this version writes them.
- Two more faults are the model's own: more than 18002 selectors (`SELECTOR_OVERRUN`, exactly then: `SetupReading.OverrunIff`), where the source writes past its tables, and a run whose 32-bit length comes out negative (`RUN_WRAPPED`), which the source takes off the count of its character before it goes on. What happens from there on is not modelled; nothing the compressor writes leads there (`StreamRoundTrip.BlockWithinLimits`).
- Checksum arithmetic: any functions with 32-bit results.
- Verbosity output, allocation failure, null-pointer arguments and unknown action codes, the work factor, the 64-bit byte totals, the stdio layer and the command-line programs.
- Decompressor.DState.Decompress: after a data error the state stays failed, where the source leaves such a stream undefined; running out of memory is not modelled. Runs of equal labels are numbered, and the three pairs of labels at which symbols are read are one pair with the place they return to.
- FileReading.BzFile.Read: the file is a sequence of bytes; read errors, null handles and handles opened for writing are not modelled.
- Overlaid memory: the overlays of pointers and symbols (`MtfProgram`) and of classes and block (`FallbackSort`) are modelled; `arr1`, `arr2` and `zbits` are otherwise separate, and `BlockCompressor.SortRotations` works on a copy of the block.
- HuffmanLengths.MakeCodeLengths: for limits of at least 12 (the source passes 17); with a limit too small for the alphabet the scaling loop of the source would not end. Frequencies total less than 2^23, as those of any block do.
- Fifty-fold unrolled loops and packed length tables are the plain loops beside them; two-dimensional tables are sequences of rows; the compressor's state is split into the collector, the bit writer and the rest.
- BufferToBuffer.BuffToBuffCompress: the room proved to suffice is 3 bytes for every byte of input and 6500 more. `generic/pagesComprBz2.c:59` allocates twice the input and 1024; that this suffices is not proved: the code lengths cost least (`CodingChoice.RebuiltBest`), but the bits that the tables themselves take in a small block are only bounded by their number. The page store copes with a packing that does not fit (`PageStore.Pages.Pack`).
- In the bucket scans of the fallback sort, the tests that cannot fail once the first scan has found a bucket are omitted.

The cookfs archive state:

- `LockExclusive`, soft and hard locks, object death; a notification is taken to wake all waiters.
- Encryption, asynchronous pages, aside pages, filesets, memory mapping, truncation, the search for stamps and the reading of the archive's suffix. The file is a byte sequence with a position; an archive is opened with an index already read (`PageStore.Pages.Reopened`).
- PageIndexIO.Import: what the source does with an accepted buffer that ends before its entries is one outcome, `Overread`; so would be running out of memory.
- PageIndex.PgIndex.GetStartOffset: requires the sizes before the page to be known, where the source panics.
- PageCache.Cache.Set: page numbers other than -1, as all callers pass; storing under -1 would make an empty slot of the entry.
- PageStore.Pages.PageGet: indices from 0 on and those marked as aside, which this archive does not hold; other negative indices are read before the first entry in the source.
- Page hashes are one fixed 16-byte function; switching the hash of a store is not modelled.
- PageStore.Pages.ReadPage: a stored page that cannot be unpacked reads as nothing, whatever the message.
- The directory tree is a value (maps of entries); `DirectoryTable` proves that one directory's table or hash is such a map. Handles, reference counts and the inactive list are not modelled, nor is the removal of a half-made entry when a block number in the set command cannot be parsed.
- FsIndex.Fsindex.Unset: like `Set` it changes the tree, a value, in one step; the walk along the path and the directory's own table are proved apart (`DirectoryTable.Directory.FindInDirectory`).
- FsIndex.Fsindex.Set: for entries whose blocks are not yet counted, as all new ones are. `Cookfs_FsindexEntryIncrBlockPageIndex`, which bypasses the counts, is not modelled.
- FsIndexIO.FromBytes: only for bytes that, after the right header, hold well-formed directories; the source reads the directories without looking where the bytes end. Growth of the export buffer is a growing sequence.
- FsIndexIO.ImportMetadata: only for bytes that hold metadata as it is written, or the beginning of it; record sizes that do not fit their key are not checked in the source.
