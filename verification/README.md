# Verified models of bzip2 and of two parts of pax

This project models libbzip2 1.0.6 (`archivers/bzip2/files`), compressor and decompressor, and two parts of
pax (`archivers/pax/files`): the device map and the writer that leaves holes. Every method is proved against a
specification; the specifications are then connected to one another by lemmas.

The result everything leads to is that decompressing undoes compressing:

* `Compressor.Compressor.Compress` is BZ2_bzCompress, any sequence of calls with any amounts of input and room. Whatever
  the calls, the bytes handed out are those of a stream of blocks, and the blocks together with what is still pending
  stand for exactly the input consumed.
* `RoundTrip.DecodeCompressed` says that a decoder reading such a stream gets that input back, checksums included.
* `Decompressor.Decompressor.Decompress` is BZ2_bzDecompress over its own storage, fast or small, again for any sequence
  of calls: what comes out in all calls together is what the stream decodes to, and nothing else.
* `Sessions.ThereAndBack` puts the two together: any calls that compress, then the stream in any pieces with any room, in
  either mode. No trouble is ever reported, what comes out begins what went in, and at the end it is what went in.
* `BufferToBuffer.ThereAndBack` is the same for whole buffers in one call each, where ample room makes it unconditional.

Three more results stand beside it:

* `Huffman.MakeCodeLengths` makes code lengths that no prefix code improves on for the frequencies as rescaled, and
  rescales only as long as such lengths are over the limit; every table of every block sent is made like that from the
  groups that use it (`BlockEncoder.EncodeBlock`).
* `Detection.BurstFound` and what follows from it say which damage the checksums find, `Detection.UpdateDivides` that the
  table form of the checksum is division by its polynomial.
* `InducedCopy.CopiedOrder`, with `FrontsMeet`, says that the sort of a whole big bucket by copying puts every row in its
  place.

Since equal rotations of a block can be sorted either way, no stage is specified by the exact bytes it produces. Each is
specified by what it must preserve: a row order *sorts the rotations*, code lengths *make a complete prefix code*, a
stream *decodes to* the data.

## How it is built

| files | what they model |
|---|---|
| `Basics`, `Permutations`, `Counting`, `SortStack`, `Partitioning`, `Radix`, `Placement`, `Bits` | what the sorts and tables share |
| `Rotations`, `BurrowsWheeler` | cyclic order of rotations, the inverse transform |
| `FallbackQuickSort`, `PrefixDoubling`, `FallbackSort` | fallbackSort |
| `MainCompare`, `MainQuickSort`, `BucketSides`, `InducedCopy`, `MainSort`, `BlockSort`, `TwinBlock` | mainSort and BZ2_blockSort |
| `Heap`, `Forest`, `PrefixCodes`, `Optimality`, `Huffman`, `CanonicalCodes` | huffman.c |
| `MoveToFront`, `MtfCoding` | the sliding cache of the decoder, the symbols of the compressor |
| `Words`, `BitStream`, `BlockFormat`, `BlockWriter`, `BlockEncoder`, `StreamFormat`, `StreamSize` | compress.c |
| `RunLength`, `FrontEnd`, `Compressor` | the run-length front end and the streaming compressor |
| `BlockParser`, `ParseHeader`, `ParseData`, `ParseBlock`, `ParserBounds`, `RunGuard`, `DecoderState`, `StreamStart` | decompress.c |
| `Crc`, `InverseVectors`, `OutputRuns`, `OutputSide`, `Decompressor`, `OutputCalls` | the output side and BZ2_bzDecompress |
| `RoundTrip`, `BufferToBuffer`, `Sessions`, `Detection` | the round trip, and what the checksums find |
| `DeviceMap`, `DeviceTable`, `SparseWrite` | pax |

The parser of the decompressor appears twice. `BlockParser` has it as a machine on values, so that runs can be reasoned
about; `DecoderState.DState` has it over arrays, the sliding cache and the decode tables, and refines the machine step by
step.

## Where the source and its comments differ, or a claim fails

* `archivers/bzip2/files/blocksort.c:964-985` says that unequal `quadrant` entries of equal characters mean strictly
  ordered strings. That fails of the block w w with w a 1, then zeros and twos by turns, 5000 characters in all
  (`TwinBlock.Twins`), which is what the front end stores for these very bytes (`TwinBlock.TwinsStored`). Its two equal
  rotations are the whole big bucket of character 1, which is neither last in the running order nor preceded by any other
  that needs sorting (`TwinBlock.TwinOrder`); sorting it takes one comparison, and from work factor 4 on the budget outlasts
  that (`TwinBlock.BudgetForTwins`). So the run reaches the point and leaves entries that break the claim
  (`TwinBlock.TwinsRun`). The claim holds of a cached big bucket exactly when no two equal rotations in it are in different
  groups of 2^shifts ranks (`MainSort.StrictExactly`), so of every bucket without equal rotations
  (`MainSort.StrictWithoutTies`), and of a bucket cached without scaling only of those (`MainSort.StrictExactlyWithoutTies`).
  The sort needs only the weaker reading, and that is the invariant proved to be kept (`MainSort.UpdateQuadrants`).
* `archivers/bzip2/files/decompress.c:289-300` reads as many selectors as are announced, up to 32767, into an array of
  18002 (`archivers/bzip2/files/bzlib_private.h:402-403`). The machine stops at the write that would go past the end:
  every other place it names in an array is there whatever the input (`ParserBounds.StreamInBounds`), and a table of
  selectors is read to its end if and only if at most 18002 are announced (`ParseHeader.SelectorsFit`). Such streams have the
  outcome `Outside`.
* The two output routines report a bad block at different times: the fast one as soon as its bytes are out, the small one
  once there is still room after them. Both contracts say so.
* `archivers/pax/files/tables.c:878-897` takes the first device number its table does not know. Devices stored as they
  are never enter the table, so such a number can be taken later for another device. `DeviceMap.DirectNumberTaken` gives
  a run in which two files are stored alike, and `DeviceMap.PhaseOneToOne` says exactly which runs are free of this.
* `archivers/pax/files/buf_subs.c:774-775` flushes a file even after writing it has failed, and the zero can go over a byte
  that was in place. The calls follow from the data and the block size alone; the byte is lost if and only if the
  first of them to fail is a seek, the byte before it is not zero, and the next two calls succeed (`SparseWrite.Loses`,
  `SparseWrite.RdWrFile`). The seek is then at the start of a block (`SparseWrite.LosesAtBlock`). `SparseWrite.LastByteLost`
  runs the extraction of a block that ends in a nonzero byte and a block of zeros, for any block size.

## Model

| member | source | states |
|---|---|---|
| BurrowsWheeler.InverseTransform | archivers/bzip2/files/decompress.c:559-574 | for every nonempty block, every row order that sorts its rotations (ties in any order) and every row that stands for the block itself, the chain through the last column spells the block |
| BurrowsWheeler.SteppedBackSorts | archivers/bzip2/files/decompress.c:559-564 | stepping every row back by one character along the stable order of the last column gives a row order that sorts the rotations again |
| FallbackQuickSort.FallbackSimpleSort | archivers/bzip2/files/blocksort.c:32-59 | the stretch is ordered by class and permuted, nothing else moves |
| FallbackQuickSort.FallbackQSort3 | archivers/bzip2/files/blocksort.c:93-180 | for any range of up to 900000 entries: terminates, permutes only the range, orders it by class, and the stack assertion holds |
| Partitioning.SplitAndGather | archivers/bzip2/files/blocksort.c:132-170 | three-way split: smaller keys, equal keys, greater keys, in a permutation of the range |
| FallbackSort.InitialBuckets | archivers/bzip2/files/blocksort.c:231-241 | the rows are bucketed by their first byte, and the two count tables are as needed |
| FallbackSort.InitialHeaders | archivers/bzip2/files/blocksort.c:243-257 | the header bits mark exactly the starts of the buckets, followed by the alternating bits past the end |
| PrefixDoubling.NumberingClasses | archivers/bzip2/files/blocksort.c:266-271 | numbering rows by the last header at or above them gives class numbers that order positions exactly as their H characters do |
| FallbackSort.NumberClasses | archivers/bzip2/files/blocksort.c:266-271 | the numbering loop leaves such classes |
| FallbackSort.SkipBits | archivers/bzip2/files/blocksort.c:278-290 | the scan for the next bit of the other kind, whole words of 32 bits at a time where it can, stops at the first one and reads no word past the one that holds a sentinel |
| FallbackSort.NextBucket | archivers/bzip2/files/blocksort.c:276-292 | the next bucket of more than one row, all rows before it being buckets of their own; the alternating bits past the end stop the search |
| PrefixDoubling.PassingBucket | archivers/bzip2/files/blocksort.c:273-306 | a bucket sorted by class and marked anew makes order and headers exact for 2H characters up to its end |
| FallbackSort.RefineBuckets | archivers/bzip2/files/blocksort.c:273-306 | one pass turns an order and headers exact for H characters into ones exact for 2H; when nothing was left to do every row is a header |
| FallbackSort.DoublePrefixes | archivers/bzip2/files/blocksort.c:259-313 | the loop ends with a permutation that sorts all rotations, each row keeping its first byte |
| FallbackSort.Reconstruct | archivers/bzip2/files/blocksort.c:322-328 | the overwritten block is rebuilt exactly from order and counts |
| FallbackSort.FallbackSort | archivers/bzip2/files/blocksort.c:212-329 | the order sorts the rotations of the block, and the block is as before |
| MainCompare.AgreedDecides | archivers/bzip2/files/blocksort.c:354-469 | as long as characters and cached orders agree, what decides at the position reached decides the whole cyclic comparison |
| MainCompare.MainGtU | archivers/bzip2/files/blocksort.c:347-469 | under the quadrant invariant the answer is the cyclic order of the two rotations (either answer for equal ones); no index beyond nblock + 33 is read, and at most nblock/8 + 2 units of the budget are used |
| MainCompare.MainSimpleSort | archivers/bzip2/files/blocksort.c:485-555 | unless the budget runs out the stretch is in cyclic order; always a permutation of it |
| MainQuickSort.OrderBySize | archivers/bzip2/files/blocksort.c:607-613 | the three pieces, the largest first |
| MainQuickSort.MainQSort3 | archivers/bzip2/files/blocksort.c:621-717 | for rows that share their first characters: terminates, permutes only the range, cyclic order unless the budget runs out, and the stack assertion holds |
| MainSort.CountPairs | archivers/bzip2/files/blocksort.c:769-792 | ftab counts how often each pair of characters occurs, around the end of the block |
| MainSort.PlacePairs | archivers/bzip2/files/blocksort.c:802-830 | the rows are bucketed by their first two characters and ftab holds the starts of the buckets |
| MainSort.RunningOrder | archivers/bzip2/files/blocksort.c:837-860 | a permutation of the 256 characters, smallest big bucket first |
| MainSort.SortSmallBucket | archivers/bzip2/files/blocksort.c:887-905 | an unflagged small bucket comes into cyclic order and is flagged; flags are true of the order |
| InducedCopy.Room | archivers/bzip2/files/blocksort.c:923-934 | the front of a bucket being copied into never passes the front of the other pass |
| InducedCopy.PassComplete | archivers/bzip2/files/blocksort.c:923-934 | at the end of a pass every rotation of the big bucket on that pass's side has been read, those it wrote itself included |
| InducedCopy.FrontsMeet | archivers/bzip2/files/blocksort.c:919-934 | after both passes every bucket [t, ss] with t not done is filled |
| InducedCopy.CopiedOrder | archivers/bzip2/files/blocksort.c:917-935 | the rows copied into a bucket [t, ss], [ss, ss] included, are its rotations in cyclic order |
| InducedCopy.OwnFrontsMeet | archivers/bzip2/files/blocksort.c:937-944 | the two pointers of [ss, ss] meet, unless the block is one repeated symbol, and then they are where the assertion says |
| InducedCopy.UniformFronts | archivers/bzip2/files/blocksort.c:937-944 | in a block of one repeated symbol no row is copied and the pointers stay at its ends |
| MainSort.ScanFromLeft | archivers/bzip2/files/blocksort.c:923-928 | the scanning loop carries out the left pass to its end |
| MainSort.ScanFromRight | archivers/bzip2/files/blocksort.c:929-934 | the scanning loop carries out the right pass to its end |
| MainSort.CopyBuckets | archivers/bzip2/files/blocksort.c:917-946 | once the small buckets [ss, j] are sorted, all buckets [t, ss] are, and are flagged |
| MainSort.UpdateQuadrants | archivers/bzip2/files/blocksort.c:987-1004 | caching a big bucket, scaled ranks and overshoot copies included, keeps the quadrant invariant |
| MainSort.StrictExactly | archivers/bzip2/files/blocksort.c:964-1002 | for any scaling: the comment's strict reading holds of a cached bucket if and only if no two equal rotations of it are in different groups of 2^shifts ranks |
| MainSort.StrictWithoutTies | archivers/bzip2/files/blocksort.c:964-1002 | for any scaling it holds of every bucket without equal rotations |
| MainSort.StrictExactlyWithoutTies | archivers/bzip2/files/blocksort.c:964-985 | of a bucket cached without scaling the comment's strict reading holds if and only if the bucket has no two equal rotations |
| MainSort.SortOneBigBucket | archivers/bzip2/files/blocksort.c:868-1006 | one round of the main loop keeps buckets, flags, cache and the set of done characters in step, caches the bucket unless it is the last, and spends on a bucket of one pair no more than one comparison |
| MainSort.SortBigBuckets | archivers/bzip2/files/blocksort.c:868-1011 | any number of rounds, smallest buckets first: the state between rounds holds, the last bucket done is cached, and if it is the first with something to sort and holds one pair, one comparison at most is spent |
| MainSort.MainSort | archivers/bzip2/files/blocksort.c:751-1011 | unless the budget runs out the row order sorts the rotations; the block is unchanged |
| BlockSort.BlockSort | archivers/bzip2/files/blocksort.c:1031-1089 | whichever sort is used, the rows are in the order of the rotations, origPtr is the row of the block, the block is unchanged |
| TwinBlock.TwinsStored | archivers/bzip2/files/bzlib.c:216-287 | no two neighbours of the block w w, w a 1 and then zeros and twos by turns, 5000 characters, are equal: compressing these bytes hands just this block to the sort |
| TwinBlock.TwinBucket | archivers/bzip2/files/blocksort.c:802-830 | its big bucket of character 1 is one small bucket of the two equal rotations |
| TwinBlock.TwinOrder | archivers/bzip2/files/blocksort.c:832-860 | in any running order by size that bucket comes before the last, and before it only buckets without anything to sort |
| TwinBlock.TwinsNotStrict | archivers/bzip2/files/blocksort.c:964-985 | however that bucket is cached, its entries fail the strict reading |
| TwinBlock.BudgetForTwins | archivers/bzip2/files/blocksort.c:1063-1066 | from work factor 4 on the budget for that block is larger than the cost of comparing two equal rotations |
| TwinBlock.TwinsRun | archivers/bzip2/files/blocksort.c:751-1009 | the run of the sort on that block, to the end of the round for character 1: the work allowed is not used up, and quadrant breaks the strict reading |
| Heap.UpHeap | archivers/bzip2/files/huffman.c:33-42 | the heap order is restored by moving entries only |
| Heap.DownHeap | archivers/bzip2/files/huffman.c:44-59 | the same, downwards |
| Heap.PopTop | archivers/bzip2/files/huffman.c:101 | the entry taken leaves the multiset of entries, the heap order stays |
| Heap.Push | archivers/bzip2/files/huffman.c:107-109 | an entry joins the multiset of entries, the heap order stays |
| Forest.JoinedKraft | archivers/bzip2/files/huffman.c:100-110 | joining two trees halves each leaf's share, so that the shares of the new tree add up to one |
| Huffman.JoinLightest | archivers/bzip2/files/huffman.c:100-110 | a round takes two trees than which no other is lighter and leaves the forest with their join, weights and depths as packed; that all joins are like that is kept |
| Optimality.JoinCode | archivers/bzip2/files/huffman.c:100-110 | from any prefix code for the trees there are, however long its codes, one for them with the two lightest joined, cheaper by their weights at least |
| Optimality.GreedyCheapest | archivers/bzip2/files/huffman.c:96-132 | depths in a tree made by always joining the two lightest are lengths that no prefix code improves on, complete or not and however long its codes |
| Huffman.DepthLimit | archivers/bzip2/files/huffman.c:100-110 | Fibonacci bound: a tree of total weight up to 900259 is at most 28 deep, so packed weights neither overflow nor spill |
| Huffman.Rescale | archivers/bzip2/files/huffman.c:142-146 | every leaf weight w becomes 1 + w/2 |
| Huffman.RescaledTotal | archivers/bzip2/files/huffman.c:142-146 | scaling never raises the total, and leaves it as it is only if every weight is already at most 2, so that the total is at most twice the number of symbols |
| Huffman.MakeCodeLengths | archivers/bzip2/files/huffman.c:63-148 | for 3 to 258 symbols and up to 900001 occurrences: terminates, lengths from 1 to the limit, Kraft's sum exactly one; each round finds the cheapest lengths for the frequencies, 0 taken as 1, halved and rounded up once for each round before, and every round but the last finds some that are over the limit |
| Huffman.HeavierNotLonger | archivers/bzip2/files/huffman.c:63-148 | of two symbols of different weight in the last round the heavier one never has the longer code |
| CanonicalCodes.CodesFit | archivers/bzip2/files/huffman.c:152-166 | under Kraft's inequality the codes of each length fit that length |
| CanonicalCodes.AssignCodes | archivers/bzip2/files/huffman.c:152-166 | each symbol gets its canonical code |
| CanonicalCodes.CreateDecodeTables | archivers/bzip2/files/huffman.c:170-200 | limit, base and perm are what the canonical codes of these lengths require |
| CanonicalCodes.PrefixGoesOn | archivers/bzip2/files/decompress.c:90-97 | no proper prefix of a code passes the limit test |
| CanonicalCodes.CodeFound | archivers/bzip2/files/decompress.c:90-101 | the whole code passes it and leads to its own symbol |
| MoveToFront.MtfCache.constructor | archivers/bzip2/files/decompress.c:358-370 | the cache starts as the list 0, ..., 255 |
| MoveToFront.MtfCache.MoveUp | archivers/bzip2/files/decompress.c:423-475 | for any index the cache does what a plain list does when an entry moves to the front, and returns that entry |
| MoveToFront.MtfCache.Rebuild | archivers/bzip2/files/decompress.c:463-472 | packing the segments in place changes nothing on the list and leaves room before it |
| MtfCoding.SymbolsBound | archivers/bzip2/files/compress.c:163-228 | never more symbols than entries, all below the end mark |
| MtfCoding.CharactersInUse | archivers/bzip2/files/compress.c:102-111 | nInUse is the number of different characters in the block |
| MtfCoding.SymbolsDecoded | archivers/bzip2/files/decompress.c:372-486 | undoing run codes and move-to-front on the symbols of a column, then the end mark, gives the column |
| MtfCoding.RunDecoded | archivers/bzip2/files/decompress.c:379-398 | the code of a run adds exactly the run, whatever follows |
| MtfCoding.RotateList | archivers/bzip2/files/compress.c:189-207 | finding a character and rotating it to the front in one sweep |
| MtfCoding.GenerateMtfValues | archivers/bzip2/files/compress.c:120-231 | the 16-bit symbols written over the row order never hit a word still to be read; at most nblock + 1; they are the coded column and the end mark, and mtfFreq counts them |
| BitStream.BitWriter.Put | archivers/bzip2/files/compress.c:58-78 | the n low bits of v are appended to all bits written |
| BitStream.BitWriter.Finish | archivers/bzip2/files/compress.c:46-54 | the bits are filled up to a byte with fewer than eight zeros |
| BitStream.BitReader.Get | archivers/bzip2/files/decompress.c:43-65 | n bits if they can be had, otherwise suspended with everything fetched kept and the input used up |
| BlockWriter.SelectorPositions | archivers/bzip2/files/compress.c:461-478 | the move-to-front positions of the selectors |
| BlockWriter.CountTable | archivers/bzip2/files/compress.c:405-431 | rfreq[t][v] is how often symbol v occurs in the groups whose selector is t |
| BlockWriter.MakeLengths | archivers/bzip2/files/compress.c:449-451 | each table gets complete lengths of at most 17, those that BZ2_hbMakeCodeLengths makes of how often the groups that use it use each symbol |
| BlockWriter.PutTable | archivers/bzip2/files/compress.c:531-539 | one table of lengths, as steps up and down |
| BlockWriter.PutData | archivers/bzip2/files/compress.c:546-593 | all symbols, in groups of 50, each with the code of its group's table |
| BlockWriter.SendMtfValues | archivers/bzip2/files/compress.c:449-594 | for any choice of table per group: what is appended is the format of in-use map, selectors, tables and symbols, and all of it is in range |
| BlockEncoder.EncodeBlock | archivers/bzip2/files/compress.c:616-653 | appends the bits of a coded form of the block: sorted rows, their last column in symbols over just the characters of the block, tables made for the groups that use them |
| BlockParser.RunInPieces | archivers/bzip2/files/decompress.c:43-65 | however the input is cut, the machine ends in the same state with the same bits in hand |
| ParseHeader.SelectorsFit | archivers/bzip2/files/decompress.c:289-300 | a stream that gives as many selectors as it announces is parsed past them if and only if at most 18002 are announced; otherwise the parser stops at the write past selectorMtf |
| ParserBounds.StreamInBounds | archivers/bzip2/files/decompress.c:195-486 | whatever the input and however many blocks: all places named are there, in inUse16[16], inUse[256] at i*16+j, selectorMtf and selector (18002), pos[6], len[6][258], selector[groupNo] and the table it names, and the move-to-front list; the parser stops before a write past selectorMtf, and only when more than 18002 selectors are announced |
| ParserBounds.RunInBounds | archivers/bzip2/files/decompress.c:195-486 | the same from any state of a run on |
| ParserBounds.SymbolInRange | archivers/bzip2/files/decompress.c:381-478 | a symbol of its table never asks for a place outside the list or for a character not in use, and a run is never negative |
| RunGuard.RunsFit | archivers/bzip2/files/decompress.c:381-398 | whatever the input, the guard at 2*1024*1024 keeps every run length at least -1 and below 2^23, so that es never goes negative by overflow |
| ParseHeader.SelectorsUndone | archivers/bzip2/files/decompress.c:302-314 | undoing the move-to-front coding gives the selectors back |
| DecoderState.UndoPositions | archivers/bzip2/files/decompress.c:302-314 | the loops over pos, selectorMtf and selector do that undoing, all indices in range |
| ParseHeader.ParseGroups | archivers/bzip2/files/decompress.c:276-281 | parsing the mapping table gives the in-use map back |
| ParseHeader.ParseTables | archivers/bzip2/files/decompress.c:316-329 | parsing the tables gives every code length back |
| ParseData.ParseCode | archivers/bzip2/files/decompress.c:74-102 | a code followed by any bits is read as its symbol, consuming exactly its length |
| ParseData.SymbolOfDigit | archivers/bzip2/files/decompress.c:381-398 | a digit of a run that is part of a block is taken in: the guard never rejects what a compressor can write |
| ParseData.ParseSyms | archivers/bzip2/files/decompress.c:372-486 | from any symbol on, the rest of the column comes out and the parser stops for output |
| ParseBlock.ParseWhole | archivers/bzip2/files/decompress.c:226-486 | parsing the bits of a coded block followed by any bits consumes just the block and gives back checksum, origPtr and column |
| ParseBlock.ColumnBack | archivers/bzip2/files/decompress.c:372-486 | for the symbols of a sorted block the column is the last column of its rotations |
| DecoderState.LookupAgrees | archivers/bzip2/files/decompress.c:90-101 | searching limit, base and perm is the same as looking for the symbol with that place, and a number that passes the limit test never points past the symbols |
| DecoderState.DState.DoSymbol | archivers/bzip2/files/decompress.c:375-486 | over tt, the cache and the counts, a decoded symbol does what it does to the machine |
| DecoderState.DState.Advance | archivers/bzip2/files/decompress.c:195-606 | each step over the arrays is a step of the machine, errors included |
| DecoderState.DState.Decompress | archivers/bzip2/files/decompress.c:106-641 | a call uses a prefix of the input, ends where the machine ends on those bits, and stops short only when the input is used up; the return code says how |
| Placement.VectorIsStable | archivers/bzip2/files/decompress.c:559-564 | placing entries by running counts is the stable order the inverse transform asks for |
| InverseVectors.MakeCftab | archivers/bzip2/files/decompress.c:494-516 | cftab holds the starts of the buckets, in range and not descending, so that the source's checks never fail |
| InverseVectors.BuildFast | archivers/bzip2/files/decompress.c:559-564 | the vector is or-ed in above the characters without disturbing them |
| InverseVectors.CellArray.Set | archivers/bzip2/files/bzlib_private.h:458-470 | writing one 20-bit cell changes no other |
| InverseVectors.FillCells | archivers/bzip2/files/decompress.c:529-534 | the forward vector, built over the characters |
| InverseVectors.ReversePointers | archivers/bzip2/files/decompress.c:536-545 | reversing pointers along the cycle of origPtr ends and leaves the inverse vector on that cycle |
| InverseVectors.IndexIntoF | archivers/bzip2/files/bzlib.c:687-698 | the binary search finds the bucket a row is in |
| InverseVectors.RowCharacter | archivers/bzip2/files/bzlib_private.h:475-479 | and that bucket's character is the one the fast vector holds |
| OutputSide.StartRunFast | archivers/bzip2/files/bzlib.c:636-660 | starts the next run as specified, fetching ahead |
| OutputSide.StartRunSmall | archivers/bzip2/files/bzlib.c:781-800 | the same run, from the reversed cells |
| OutputSide.OutputState.UnRleFast | archivers/bzip2/files/bzlib.c:589-681 | as much of the pending runs as there is room for goes out, in order and into the checksum; corrupt exactly when the block lacks a count and all of it fits |
| OutputSide.OutputState.UnRleSmall | archivers/bzip2/files/bzlib.c:759-803 | the same bytes; corrupt exactly when the block lacks a count and room is left after all of it |
| OutputCalls.CallFast | archivers/bzip2/files/bzlib.c:589-681 | however the room is divided over calls of the fast routine, together they put out the pending bytes from the front, as many as there is room for in all; corruption is found exactly when the block lacks a count and all of it fits |
| OutputCalls.CallSmall | archivers/bzip2/files/bzlib.c:759-803 | the same for the small routine, which finds corruption only with room to spare |
| Decompressor.SetUpFast | archivers/bzip2/files/decompress.c:494-576 | a column becomes the fast vector with one byte fetched ahead |
| Decompressor.SetUpSmall | archivers/bzip2/files/decompress.c:494-555 | a column becomes the reversed cells with one byte fetched ahead, for the same chain |
| OutputCalls.PutOutBlock | archivers/bzip2/files/bzlib.c:819-823 | from one column both modes put out, over any calls with any room, prefixes of the same bytes, of a length that depends on the room alone |
| Decompressor.MoreOut | archivers/bzip2/files/bzlib.c:819-838 | what has come out and what is to come are together the same after some more has come out |
| Decompressor.Decompressor.constructor | archivers/bzip2/files/bzlib.c:492-528 | in both modes, what will come out of a stream is what the stream decodes to |
| Decompressor.Decompressor.PutOut | archivers/bzip2/files/bzlib.c:819-840 | output goes on or ends with the checksum compared, without changing the outcome |
| Decompressor.Decompressor.Parse | archivers/bzip2/files/bzlib.c:841-852 | parsing goes on, without changing the outcome; the combined checksum decides at the end |
| Decompressor.Decompressor.Decompress | archivers/bzip2/files/bzlib.c:808-858 | for any pieces of input and any room: the outcome is conserved over calls, BZ_STREAM_END comes when all of it is out, an error exactly names a corrupt stream, BZ_DATA_ERROR_MAGIC comes if and only if the input received departs from a magic number within its first four bytes, BZ_OK means nothing more can be done; streams with a randomised block or too many selectors have a code and an outcome of their own |
| RunLength.ExpandBlock | archivers/bzip2/files/bzlib.c:216-247 | undoing the run-length coding of a block gives its data, and no run lacks its count |
| RunLength.RestExpands | archivers/bzip2/files/bzlib.c:604-661 | the output side, reading along the chain, undoes the run-length coding |
| FrontEnd.AddPairToBlock | archivers/bzip2/files/bzlib.c:216-247 | a run is stored, at most five bytes, just the characters of the block stay marked, and the bytes of the run go into the checksum |
| FrontEnd.EmptyOk | archivers/bzip2/files/bzlib.c:117-126 | a new block has no bytes, no character marked and the initial checksum |
| FrontEnd.AddChar | archivers/bzip2/files/bzlib.c:260-284 | runs stored and pending run stand for one more byte |
| FrontEnd.FlushRL | archivers/bzip2/files/bzlib.c:252-256 | the pending run is stored |
| StreamFormat.OpenSnoc | archivers/bzip2/files/compress.c:602-653 | bits, data and combined checksum of the stream after one more block |
| StreamFormat.SentMarks | archivers/bzip2/files/bzlib.c:216-247 | every block sent marks a character if and only if it occurs, and its tables have a code for each of them and two more |
| StreamSize.SentLength | archivers/bzip2/files/compress.c:618-653 | a block of n bytes takes at most 168809 + 20(n + 1) bits |
| StreamSize.StreamLength | archivers/bzip2/files/compress.c:602-667 | a stream is shorter than 15 + 4n bytes for n bytes of data, and 21104 for each block sent before it was full |
| Compressor.Compressor.CopyInput | archivers/bzip2/files/bzlib.c:289-329 | input is taken until the block is full, there is no more, or what is due has been taken; nblock stays within 100000*blockSize100k-10 |
| Compressor.Compressor.CompressBlock | archivers/bzip2/files/compress.c:602-667 | the block joins the stream, the pending run opens the next one; the last block is followed by the trailer; all that is written into zbits fits into what arr2 has left behind the block |
| Compressor.Compressor.HandleCompress | archivers/bzip2/files/bzlib.c:361-403 | terminates, having consumed input from the front and put out what there is room for; reports progress exactly when there was some, and sends at most one block that is not full |
| Compressor.Compressor.Compress | archivers/bzip2/files/bzlib.c:407-464 | over all call sequences each input byte is consumed once and accounted for, output only grows and stays within ample room, BZ_STREAM_END comes only with the whole stream out, misuse changes nothing; BZ_SEQUENCE_ERROR and BZ_PARAM_ERROR come exactly on misuse and on calls that get nowhere, and a finishing call with room always gets somewhere |
| RoundTrip.ChainSpellsBlock | archivers/bzip2/files/decompress.c:559-574 | the chain through the last column of a sent block spells that block |
| RoundTrip.BlockData | archivers/bzip2/files/bzlib.c:604-661 | the output side puts out exactly the data of a sent block |
| RoundTrip.DecodeCompressed | archivers/bzip2/files/bzlib.c:808-858 | decoding a completed stream, whatever bits follow it, gives the data of all its blocks |
| RoundTrip.DecodeWith | archivers/bzip2/files/bzlib.c:806-852 | a stream of whole blocks decodes to their data if and only if the combined checksum in its trailer is theirs, and is corrupt otherwise |
| StreamStart.RunStart | archivers/bzip2/files/decompress.c:197-208 | from anywhere within the magic number: BZ_DATA_ERROR_MAGIC at the first byte that is not 0x42, 0x5A, 0x68 and one of 0x31 to 0x39 in its place, past it with all four right, and otherwise still within it |
| StreamStart.HeadRead | archivers/bzip2/files/decompress.c:220-235 | six bytes at the start of a block other than 31 41 59 26 53 59 and 17 72 45 38 50 90 are a data error |
| StreamStart.HeardOn | archivers/bzip2/files/decompress.c:197-208 | over suspended calls: the parser fails with BZ_DATA_ERROR_MAGIC if and only if a wrong byte is among the first four received, and with another code only after four right ones |
| StreamStart.CompleteStarts | archivers/bzip2/files/compress.c:624-636 | every stream written begins with "BZh", the digit of the block size and one of the two magic numbers, the first if it has data |
| StreamStart.EmptyComplete | archivers/bzip2/files/compress.c:624-667 | a stream without data is just these fourteen bytes |
| Detection.UpdateDivides | archivers/bzip2/files/bzlib_private.h:167-172 | with the table made by dividing every byte by 0x04C11DB7, folding in a byte is dividing by it bit by bit |
| Detection.PolynomialSpread | archivers/bzip2/files/crctable.c:31-99 | the low bytes of the entries of that table are all different |
| Detection.KnownChecksum | archivers/bzip2/files/bzlib_private.h:157-172 | with it the digits 1 to 9 have the checksum 0xFC891918 |
| Detection.BurstFound | archivers/bzip2/files/bzlib_private.h:167-172 | strings of equal length that differ only within four bytes in a row have the same checksum if and only if they are equal |
| Detection.DamageFound | archivers/bzip2/files/bzlib.c:825-834 | a block stored with the checksum of one such string and decoding to the other makes the stream corrupt |
| Detection.ReplacedFound | archivers/bzip2/files/bzlib.c:835-852 | a block replaced by another whole one is found at the end if and only if their checksums differ |
| Detection.CombineOrder | archivers/bzip2/files/bzlib.c:835-838 | the combined checksum of two blocks is the same in both orders if and only if theirs are equal or opposite in every bit |
| Detection.ExchangeFound | archivers/bzip2/files/bzlib.c:835-852 | so two neighbouring blocks exchanged are found at the end, but for that case |
| BufferToBuffer.CompleteMeans | archivers/bzip2/files/bzlib.c:452-461 | a completed stream decodes to what was consumed |
| BufferToBuffer.Compress | archivers/bzip2/files/bzlib.c:1247-1295 | on success the buffer decodes to the source and begins with header and magic number, or is the fourteen bytes of an empty stream; with 21119 + 4n bytes of room for n it succeeds; a full buffer is reported as such; BZ_SEQUENCE_ERROR comes exactly for nothing to do in no room |
| BufferToBuffer.Decompress | archivers/bzip2/files/bzlib.c:1299-1348 | in either mode: success if and only if the stream is whole and its data fit, and then they are the data; otherwise BZ_DATA_ERROR_MAGIC if and only if the first four bytes are wrong, BZ_DATA_ERROR for any other corrupt stream, BZ_UNEXPECTED_EOF for one that is not whole, BZ_OUTBUFF_FULL only when the room is used up |
| BufferToBuffer.ThereAndBack | archivers/bzip2/files/bzlib.c:1247-1348 | whatever the settings on either side, a buffer comes back as it was; ample room makes sure that it is packed |
| Sessions.CompressSession | archivers/bzip2/files/bzlib.c:407-464 | for any calls, inputs and room: once a call has ended the stream, what was written means what was consumed and begins as a stream has to; the output stays within ample room for that; a last call that asks for the end with ample room and is not refused gets there |
| Sessions.DecompressSession | archivers/bzip2/files/bzlib.c:808-858 | for any pieces, room and mode: the end is reported with exactly the data of the stream, trouble only if the stream comes to that, BZ_DATA_ERROR_MAGIC if and only if the pieces begin wrong, and until then the data come out from the front; a whole stream misses its end only for want of room |
| Sessions.ThereAndBack | archivers/bzip2/files/bzlib.c:407-858 | any calls to compress, then the stream in any pieces: no trouble is ever reported, what comes out begins what went in, and at the end it is that |
| DeviceMap.KeptAndCut | archivers/pax/files/tables.c:817-822 | the bits an inode keeps and the bits cut off determine it |
| DeviceMap.LowMask | archivers/pax/files/tables.c:817-822 | with a mask of k low bits the kept part is the remainder by 2^k and the cut part all the rest |
| DeviceMap.BadExactly | archivers/pax/files/tables.c:878-909 | a call is given up if and only if it needs a number and no number above the last one is unknown, its own device counted as known, or the least unknown one does not fit its field; otherwise that one is taken |
| DeviceMap.BadExactlyLow | archivers/pax/files/tables.c:878-909 | with a mask of low bits: if and only if a number is needed and every unknown one is above the mask |
| DeviceMap.CallKeeps | archivers/pax/files/tables.c:801-909 | a call that does not take a directly stored number keeps the mapping one-to-one over everything stored |
| DeviceMap.CallClashes | archivers/pax/files/tables.c:878-909 | a call that does take one breaks it |
| DeviceMap.PhaseOneToOne | archivers/pax/files/tables.c:801-909 | over any write phase the mapping from device and cut-off bits to stored device is consistent and one-to-one if and only if no call takes the number of a device stored as it was |
| DeviceMap.PhasePairs | archivers/pax/files/tables.c:801-909 | and then two files get the same pair of numbers just when they are the same file |
| DeviceMap.DirectNumberTaken | archivers/pax/files/tables.c:878-909 | a run of two files that are stored alike |
| DeviceMap.ArchivedSpared | archivers/pax/files/tables.c:721-727 | whatever the calls, no file is stored with a device number registered by add_dev |
| DeviceTable.DeviceTable.ChkDev | archivers/pax/files/tables.c:742-786 | the entry of a device in the hash chains, found or put in |
| DeviceTable.DeviceTable.AddDev | archivers/pax/files/tables.c:721-727 | the device is known, with nothing mapped yet |
| DeviceTable.DeviceTable.NextNumber | archivers/pax/files/tables.c:878-894 | the search stops at the least unknown number after the last one, and wraps around if and only if there is none |
| DeviceTable.DeviceTable.MapDev | archivers/pax/files/tables.c:801-909 | over the hash chains and lists, a call does what the specification says; the warning is given if and only if numbers have run out, by the condition on the table before the call |
| SparseWrite.FileWrite | archivers/pax/files/file_subs.c:956-1055 | whatever the pieces and the block size, the file stands for all data written, missing at most zeros at its end, and isempt says whether the current block is all zeros; when a seek or a write fails, for the data up to there; which call fails, and which calls are left, follows from the data, the blocks and the calls alone |
| SparseWrite.FileFlush | archivers/pax/files/file_subs.c:1064-1087 | exactly when isempt is set, there is a byte to go back to and both calls succeed, a zero over the last byte and the zeros missing before it; otherwise nothing |
| SparseWrite.LosesAtBlock | archivers/pax/files/buf_subs.c:751-775 | when a byte is lost, the seek that failed was at the start of a block |
| SparseWrite.LastByteLost | archivers/pax/files/buf_subs.c:708-791 | a run with a block that ends in a nonzero byte and a block of zeros, any block size, the seek for the second failing: that byte is a zero in the file |
| SparseWrite.RdWrFile | archivers/pax/files/buf_subs.c:708-791 | a file extracted in any pieces has exactly its first st_size bytes, or all there are; it cannot be written exactly when a call its data need fails; what has been used of the archive and what is left then add up to st_size, and the file is wrong if and only if that call is a seek behind a nonzero byte and the next two succeed, and then by that byte alone; the checksum is that of the bytes used, and a mismatch is reported exactly when there is one |

## Left out

- bzip2.c, bzip2recover.c and the stdio layer of bzlib.c (BZ2_bzRead, BZ2_bzWrite, bzopen and their kin): files, options, messages, signals.
- Randomised blocks: the bit is parsed, and a stream that has it set has the outcome `Outside`; undoing the randomisation is not modelled. The compressor never sets it.
- How sendMTFValues arrives at its selectors (initial tables, cost packing, four refinement passes): the selectors are any choice of table per group. Lengths and codes are then made as the last pass makes them.
- The 256 words of BZ2_crc32Table one by one: the table is any of 256 words, and `Detection` is about the one made from the polynomial, and about all whose low bytes are different.
- The 64-bit byte counters, verbosity, allocation failure, checks for null pointers.
- Memory that the source shares: `arr1` and `arr2` hold several arrays in turn. fallbackSort works on a copy of the block that is then put back; the row order is handed to generateMTFValues as an array of its halves, lower half first; the class numbers of fallbackSort are separate from the bytes they overwrite, which are instead overwritten with zeros.
- Arrays have exactly the length the block needs, and scratch arrays (count tables, copyStart, copyEnd, cftab, ll4) are new for each use; the header bits of fallbackSort are an array of booleans, of which a word is an aligned group of 32. The flag in bit 21 of ftab is kept.
- Stretches the source writes out in full (the comparisons of mainGtU, the loops of sendMTFValues for groups of 50, the unrolled moves of the cache) are loops.
- The loops of copy_input_until_stop for running and for the other modes are one loop, and both tracks of ADD_CHAR_TO_BLOCK store a run by the same method.
- The tables the parser fills before the block data (mapping table, selectors, lengths) are sequences that grow to at most the size of their arrays. What happens after a write past selectorMtf is not part of this model.
- Calls of BZ2_bzDecompress after it has returned an error: the documentation allows only BZ2_bzDecompressEnd then.
- Input left over by a call of BZ2_bzDecompress is kept and new input added behind it, where the source has the caller pass it again.
- MainGtU: does not say which answer equal rotations get, because scaled cache entries may rank them either way.
- pax: tape and volume handling, option parsing, tree walking, other tables.
- SparseWrite.FileWrite: does not model the string targets of file_write (negative descriptors), nor which error a failing call gives.
- DecoderState.DState.Advance: does not fill the tables before the block data in place; outside the block data its step is that of the machine, but for undoing the selectors and making the decode tables.
- DeviceTable.DeviceTable.MapDev: does not model a dev_t that goes negative; dev_t has any number of values, starting from 0, and wraps around.
