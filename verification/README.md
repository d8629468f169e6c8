# bzip2, zlib and SFMT, verified

This project models three of the libraries that the repository carries, in Dafny and in the
imperative form of their C code, and proves what they are for.

The methods work on arrays and object fields as the C functions do. Each is proved against a
specification on values, and lemmas connect the specifications up to the main theorems:

* `Codec.RoundTrip`: bzip2 decompression undoes compression, for all inputs, calls and slices.
* `DeflateState.Conservation`: whatever the calls, the level and the strategy, the literals and
  matches that zlib's deflate has sent stand for exactly the input, at every end of a block; what
  comes after a full flush can be decoded without what came before it; and each of them is what
  the level and the strategy promise of the search for matches at its place.
* `HuffmanLengths.MakeCodeLengths`: the code lengths of bzip2 are those of a cheapest code, and
  fill the code space.
* `StreamEnd.DecodedExactly`: a bzip2 stream is good exactly when the checksums of its blocks are
  right, and that of the stream bit by bit.
* `FixedStream.RoundTrip`: what zlib's deflate sends with the fixed codes, inflate reads as the
  input, from calls to bytes and back.
* `InflateTable.InflateTable` and `InflateBack.Inflater.DecodeBlock`: zlib's decoding tables
  say of every bit string what the code lengths prescribe, and its fast and its slow loop read
  the same items with them, but for distances that the fast one overlooks.
* `Crc32Z.Crc32z`, `CrcPolynomial.ChecksumIs`, `Adler32.Adler32z`: the checksums, in the
  fast forms that zlib computes them in, are what they are defined to be.
* `Sfmt.FillAndRefill`: filling an array with random numbers and refilling the state go on with
  the same sequence, each word of which is given bit by bit by the words before it.

## bzip2 (`deps/bzip2`)

* `RunLength` fills a block with run-length coded input. `BlockEncoder` sorts its rotations,
  by `MainSort` (with `PairBuckets`, `RunningOrder`, `MultikeySort`, `ShellSort`, `MainCompare`,
  `BucketScan`, `BucketFill`, `BigBuckets` and `SmallBuckets`) or by `FallbackSort` (with
  `RadixStart`, `PrefixOrder`, `QuickSort` and `BucketFlags`), `MtfEncoder`
  codes the last column over the pointers, `TableChoice` and `HuffmanLengths` (with `Heap`,
  `HuffmanForest`, `HuffmanTree` and `HuffmanOptimal`) choose the codes, and `BlockWriter` sends them through `BitStream`.
  `Compressor` is the state machine around them.
* `BlockFormat` and `Stream` say, for any bit string, what the decoder makes of it, errors
  included. `BlockReader` and `ColumnReader` (with `HuffmanTables` and `SlidingList`) read a
  block, `InverseSort` links its rows, `BlockOutput` walks back through them and expands the
  runs, in fast or small mode. `Decompressor` is the state machine around them.
* `Rotations`, `RotationRanks`, `Huffman`, `MoveToFront`, `RunLength`, `BlockBits`, `BlockRoundTrip` and
  `StreamRoundTrip` hold the theorems that each stage of the decoder undoes its counterpart.
* `SelectorRoom` is about a fault of the decoder: the number of selectors is read as 15 bits and
  not compared with the size of the arrays, which is 18002. The model ends such a stream with
  the error `SelectorsOverrun` where the C code writes behind its arrays; the module shows
  a block that does so and that no other block does.

The checksum table of the bzip2 codec is a parameter: the results hold for any table. `CrcLaws` has
what the block checksum tells of a block if the table is one of a CRC, and the checksum of a
stream bit by bit; `StreamEnd` says when a stream ends well. Compressed
bytes depend on how the input is cut into calls when a block fills up on the last
byte of a call (`deps/bzip2/bzlib.c:384-393`), so the theorems are about the decoded data,
not about the stream.

## zlib (`deps/zlib`)

* `DeflateState` holds the window, the hash chains (`HashChains`, `RollingHash`) and the four
  matchers; `Lz77` says what the tokens they send stand for, and `Matching` why each of them is
  sent. A string is known once it has been put into its chain. That happens at its place, or when a
  match over it is sent (on levels 1 to 3 only if the match is not too long), provided that its
  third byte has been read by then.
* `TreeTables`, `GenCodes` and `FixedCodes` are deflate's tables and trees for the fixed codes.
  `DeflateBits` says which bits a token is, for any codes, and proves that inflate reads the same
  token from them. `DeflateOutput` sends them, from symbols that lie in the buffer that is being
  written: `CompressBlock` asks for the bits to stay behind the symbols that have been read, and
  `FixedCodes.FixedInPlace` shows that they do. The source counts 139 bits of space at least
  (`deps/zlib/deflate.c:350-354`); it leaves out the up to 7 bits that remain from the block before.
  `FixedStream` puts everything together.
* `DeflateCode` has the canonical codes as deflate counts them, with what each takes of the code
  space; `LowFirst` has numbers with their lowest bit first; `DecodingTable` says what a
  two-level table tells of a bit string, and `InflateTable` builds one.
* `InflateSpec` says what one item of a block is, on values; `InflateBack` is the loop of
  `inflateBack`, that of `inflate_fast`, and the copying in the window that is also the output.
  A distance that reaches behind what has been put out is refused by the slow loop. The fast
  loop finds this out only for some of them (`Caught`); `InflateBack.NotCaught` has one that it
  does not, and the contracts say exactly when this happens.
* `CrcField` has the polynomials modulo that of CRC-32, `CrcPowers` the powers of x, `CrcTables`
  the tables, `CrcBraid` a word of one braid, and `Crc32Z` all five; `CrcPolynomial` connects them with
  division of polynomials. `Adler32` has the other checksum.

## SFMT (`deps/SFMT`)

`Recurrence` has the bulk fill and the refill for any recurrence of this shape, `Sfmt` the
recurrence, with its shifts of 128 bits by bytes.

Machine words are natural numbers with their width written out where it matters (`word`, `byte`,
16-bit halves, 20-bit cells), and bit vectors where the C code works bit by bit (checksums,
hashes, bucket flags, random numbers).

## Model

| member | source | states |
|---|---|---|
| `Codec.RoundTrip` | deps/bzip2/bzlib.c:407-464 | For every input, block size 1 to 9, sequence of RUN, FLUSH and FINISH calls with any room for output, either decoder and any slices of output: if the calls end the stream, decompressing returns exactly the input that was taken in (or its prefix, when less room is given). |
| `Codec.CompressCalls` | deps/bzip2/bzlib.c:407-464 | The bytes handed out over any run of calls decode to the bytes taken in, once the stream has ended. |
| `Codec.CompressOnce` | deps/bzip2/bzlib.c:434-461 | A single FINISH call ends the stream unless its room for output runs out. |
| `Codec.DecompressSlices` | deps/bzip2/bzlib.c:808-858 | Output asked for slice by slice is the output of the stream, whatever the slices: the end is reported only for a good stream that has been put out in full, an error only for a stream with this error, and otherwise all slices have been filled. |
| `Compressor.StreamDecodes` | deps/bzip2/compress.c:602-667 | In every reachable state of the compressor in which the stream has ended, what was handed out decodes to what was taken in, all checksums included. |
| `StreamRoundTrip.StreamBack` | deps/bzip2/decompress.c:195-606 | A stream of any blocks, followed by anything, decodes to the data of the blocks in order. |
| `BlockRoundTrip.SectionBack` | deps/bzip2/decompress.c:222-492 | Decoding the section written for a block returns its checksum, origin and last column and leaves the bits that follow. |
| `Rotations.UnsortedSorted` | deps/bzip2/decompress.c:559-573 | Inverse block sort with ties: for every block and every sorted order of its rotations, whatever the order of equal ones, following the rows from any row equal to the block gives the block. |
| `Compressor.Compressor.Compress` | deps/bzip2/bzlib.c:407-464 | Every call keeps the invariant that relates input taken in, blocks sent and bytes handed out; exactly which calls are out of sequence or get nowhere; which calls end the stream; and that a flush or finish is left unfinished only for lack of room. |
| `Compressor.Compressor.HandleCompress` | deps/bzip2/bzlib.c:361-403 | Alternating input and output loses and repeats nothing and always comes to an end. |
| `Compressor.Compressor.CopyInput` | deps/bzip2/bzlib.c:289-329 | Input is taken in until the block is full or no more is expected. |
| `Compressor.Compressor.CompressBlock` | deps/bzip2/compress.c:602-667 | The header comes before the first block only, an empty block leaves no section, and the combined checksum is that of the blocks sent. |
| `Compressor.Compressor.CutBlock` | deps/bzip2/bzlib.c:390-393 | A run that is open when a block is full goes on in the next block; no input is lost. |
| `Compressor.Compressor.FlushBlock` | deps/bzip2/bzlib.c:384-388 | A flush or finish closes the open run into the block. |
| `Compressor.Compressor.PrepareNewBlock` | deps/bzip2/bzlib.c:114-123 | A new block starts empty and keeps the open run. |
| `RunLength.RunEncoder.AddChar` | deps/bzip2/bzlib.c:260-284 | One more byte is appended to the data of the block; a block holds at most four bytes over its limit. |
| `RunLength.RunEncoder.AddPairToBlock` | deps/bzip2/bzlib.c:216-247 | Closing a run appends its coded form, its bytes to the bytes in use and its data to the checksum. |
| `RunLength.RunEncoder.FlushRL` | deps/bzip2/bzlib.c:252-256 | Closing the open run adds at most five bytes and changes no data. |
| `RunLength.UnRleFlatten` | deps/bzip2/bzlib.c:536-682 | Run-length decoding of the coded runs gives the data of the runs, for all runs that can follow each other. |
| `RunLength.UnRlePair` | deps/bzip2/bzlib.c:220-246 | Decoding one coded run, short or with a count, gives its bytes and goes on with what follows. |
| `RunLength.UsesAdded` | deps/bzip2/bzlib.c:223-238 | The bytes in use are exactly those of the block. |
| `BlockEncoder.EncodeBlock` | deps/bzip2/compress.c:616-653 | The section written for a block is one from which the decoder recovers the block. |
| `BlockEncoder.BlockSort` | deps/bzip2/blocksort.c:1031-1089 | By whichever sort, the rotations are sorted, the block is unchanged, and a row that points to position 0 is found (so assertion 1003 holds). |
| `MainSort.Sort` | deps/bzip2/blocksort.c:751-1011 | When the main sort ends with a budget that is not negative, the pointers are a permutation in the order of the rotations; the block stays as it was either way. Nothing is counted off the budget unless two rotations of the block share a long beginning. |
| `MainSort.DoBig` | deps/bzip2/blocksort.c:868-1004 | Dealing with one big bucket keeps every position in its small bucket, sorts exactly the small buckets that are marked, and keeps the meaning of the descriptors up to ties (assertion 1006 holds). |
| `MainSort.ScanBig` | deps/bzip2/blocksort.c:911-946 | Scanning a sorted big bucket puts the buckets [t, ss] in order for every t that is not done, [ss, ss] included, and afterwards the cursors have met or the block is all one byte (assertion 1007). |
| `MainSort.ScanForward` | deps/bzip2/blocksort.c:923-928 | The scan upwards reads what was sorted and then what it has itself put into the bucket [ss, ss]. |
| `MainSort.ScanBackward` | deps/bzip2/blocksort.c:929-934 | The scan downwards, likewise. |
| `MainSort.SortBig` | deps/bzip2/blocksort.c:878-907 | Step 1 leaves the small buckets [ss, j] sorted and marked, or gives up with a negative budget, which takes a long repeat in the block. |
| `MainSort.UpdateQuadrant` | deps/bzip2/blocksort.c:989-1004 | The descriptors given to a big bucket keep their meaning: where bytes are equal they tell the order of the rotations. |
| `MainSort.DescribeBucket` | deps/bzip2/blocksort.c:989-1004 | Each position of the bucket gets its place, shifted; the 16 bits of a descriptor cut nothing off (assertion 1002), and the first ones are repeated behind the block. |
| `MainSort.DescribedTells` | deps/bzip2/blocksort.c:964-985 | Where bytes are equal and descriptors differ, the descriptors are in the order of the rotations. |
| `BucketScan.RoomLeft` | deps/bzip2/blocksort.c:923-934 | The two scans never put more positions into a small bucket than it has. |
| `BucketScan.AllFilled` | deps/bzip2/blocksort.c:937-944 | Unless all bytes of the block are the same, the two scans fill every small bucket exactly. |
| `BucketScan.ScanOn` | deps/bzip2/blocksort.c:923-934 | Each step of a scan keeps what it has come by distinct, in order, and on its side of the bucket [ss, ss]. |
| `BucketScan.RunsOrder` | deps/bzip2/blocksort.c:923-934 | A run of a byte that is followed by a smaller byte sorts before one that is followed by a greater byte. |
| `BigBuckets.ScanDone` | deps/bzip2/blocksort.c:911-946 | After both scans every position is in its bucket, and every bucket filled is sorted. |
| `SmallBuckets.AllSorted` | deps/bzip2/blocksort.c:868-1006 | When all small buckets are sorted, all rotations are. |
| `PairBuckets.PlacePairs` | deps/bzip2/blocksort.c:802-830 | The radix sort by two bytes puts every position into its small bucket and leaves the starts of the buckets in the table. |
| `PairBuckets.CountPairs` | deps/bzip2/blocksort.c:769-800 | Every small bucket is counted, including the pair around the end of the block. |
| `RunningOrder.MakeRunningOrder` | deps/bzip2/blocksort.c:832-860 | The order of the big buckets is a permutation, smallest bucket first. |
| `MultikeySort.MainQSort3` | deps/bzip2/blocksort.c:621-717 | The part is rearranged, and sorted by rotation unless the budget has run out, which takes two entries with a long beginning in common; the sort ends, and its stack of 100 entries is enough (assertion 1001). |
| `MultikeySort.PieceSplit` | deps/bzip2/blocksort.c:695-715 | Splitting a piece by one byte leaves three pieces to sort and nothing else, the middle one with one more byte in common. |
| `MultikeySort.NarrowPush` | deps/bzip2/blocksort.c:706-715 | Because the largest piece is pushed first, the pieces shrink by a factor of three over two places of the stack. |
| `MultikeySort.SplitByByte` | deps/bzip2/blocksort.c:656-700 | Splitting leaves smaller, equal and greater bytes in this order, or finds all bytes equal. |
| `ShellSort.MainSimpleSort` | deps/bzip2/blocksort.c:485-555 | The part is rearranged, and sorted by rotation unless the budget has run out; none of it is used unless two entries have a long beginning in common. |
| `ShellSort.Insert` | deps/bzip2/blocksort.c:510-522 | Inserting with increment 1 extends the sorted part by one entry, whatever the comparison answers for ties. |
| `MainCompare.GreaterThan` | deps/bzip2/blocksort.c:347-469 | The answer is yes only if the first rotation is greater or equal and no only if it is less or equal, for any descriptors that have their meaning; it always comes to an end, and counts off the budget only when the rotations agree in at least twenty more bytes. |
| `RotationRanks.RankOrder` | deps/bzip2/blocksort.c:751-1011 | Comparing ranks is comparing rotations. |
| `RotationRanks.RankAgree` | deps/bzip2/blocksort.c:347-469 | After equal bytes the order is that of the rotations further on. |
| `FallbackSort.Sort` | deps/bzip2/blocksort.c:212-329 | The fallback sort leaves the rotations in order and the block as it was. |
| `FallbackSort.RefineAll` | deps/bzip2/blocksort.c:260-313 | Doubling the prefix length ends with whole rotations in order, whether the length exceeds the block or all prefixes differ. |
| `FallbackSort.RefineBuckets` | deps/bzip2/blocksort.c:273-306 | One pass refines every bucket by class; when it had nothing to refine all entries are single. |
| `FallbackSort.Classify` | deps/bzip2/blocksort.c:266-271 | Each position gets the bucket of the rotation H positions ahead. |
| `FallbackSort.MarkChanges` | deps/bzip2/blocksort.c:299-304 | Exactly the entries whose class differs from the one before are flagged. |
| `FallbackSort.Reconstruct` | deps/bzip2/blocksort.c:322-328 | The block is written again from the sorted rotations and the byte counts, whatever the memory held; assertion 1005 holds. |
| `FallbackSort.FirstColumn` | deps/bzip2/blocksort.c:323-327 | The sorted rotations begin with the sorted bytes of the block. |
| `PrefixOrder.RefinedTwice` | deps/bzip2/blocksort.c:260-312 | Refining an order by H bytes with the classes of H bytes gives the order by 2H bytes, with flags exactly at the class starts. |
| `PrefixOrder.RefinedEnough` | deps/bzip2/blocksort.c:311-312 | The order is that of whole rotations when H reaches the block length or all flags are set. |
| `PrefixOrder.ClassesOrder` | deps/bzip2/blocksort.c:266-271 | Comparing classes is comparing the second H bytes of the rotations. |
| `PrefixOrder.SplitStep` | deps/bzip2/blocksort.c:294-305 | Sorting one bucket and flagging it extends the refined part to the end of the bucket. |
| `RadixStart.PlaceBytes` | deps/bzip2/blocksort.c:236-241 | The radix sort puts every position in its bucket and leaves the bucket starts in the table. |
| `RadixStart.FlagBuckets` | deps/bzip2/blocksort.c:243-257 | The flags mark the starts of the buckets, and the sentinels alternate, though the table is cleared only up to 2 + nblock/32 words. |
| `RadixStart.RadixRefined` | deps/bzip2/blocksort.c:225-257 | After the radix sort the order and the flags are those of the first byte. |
| `BucketFlags.FindClear` | deps/bzip2/blocksort.c:278-284 | Skipping whole words finds the first clear flag, and the sentinels stop the search. |
| `BucketFlags.FindSet` | deps/bzip2/blocksort.c:286-291 | Skipping whole words finds the first set flag. |
| `BucketFlags.SetBH` | deps/bzip2/blocksort.c:205-209 | Setting a bit of the table changes no other flag. |
| `QuickSort.QSort3` | deps/bzip2/blocksort.c:93-180 | The part is a rearrangement sorted by class; the sort ends, and its stack of 100 entries is enough (assertion 1004). |
| `QuickSort.StackDepth` | deps/bzip2/blocksort.c:172-178 | Because the larger part is pushed first, the stack depth is logarithmic: below 24 for any block. |
| `QuickSort.Partition` | deps/bzip2/blocksort.c:132-162 | Partitioning leaves equal, less, greater and equal entries, in this order. |
| `QuickSort.Gather` | deps/bzip2/blocksort.c:164-170 | The equal entries from both ends come between the less and the greater ones. |
| `QuickSort.SimpleSort` | deps/bzip2/blocksort.c:32-59 | The two insertion sorts leave the part sorted and a rearrangement. |
| `MtfEncoder.GenerateMTFValues` | deps/bzip2/compress.c:120-230 | The symbols of the block lie over the pointers, are counted, and number at most one more than the bytes of the block. |
| `MtfEncoder.CodeNext` | deps/bzip2/compress.c:153-213 | Before each step the output is not longer than the input read, so no pointer that is still needed is overwritten. |
| `MtfEncoder.PutRun` | deps/bzip2/compress.c:170-183 | A pending run is written as its digits in bijective base 2. |
| `MtfEncoder.MoveUp` | deps/bzip2/compress.c:186-206 | The byte is found in the list and moved to the front, in place. |
| `MoveToFront.FeedSymbols` | deps/bzip2/decompress.c:375-486 | The symbols of a column, fed to the decoder, reproduce the column: move-to-front and run coding are undone together. |
| `MoveToFront.DecodeEncode` | deps/bzip2/decompress.c:302-314 | Undoing the move-to-front coding of the selectors. |
| `InUse.NumberOfUsed` | deps/bzip2/compress.c:106-115 | The encoder's numbers and the decoder's list of bytes in use are inverse to each other. |
| `InUse.MakeMapsE` | deps/bzip2/compress.c:106-115 | The bytes in use are numbered in ascending order. |
| `InUse.MakeMapsD` | deps/bzip2/decompress.c:27-36 | The bytes in use are listed in ascending order. |
| `TableChoice.ChooseTables` | deps/bzip2/compress.c:266-478 | The choice can be sent: 2 to 6 tables of complete codes of at most 17 bits. Each table is a cheapest code for the symbols of the groups it codes (when codes would be longer than 17 bits, for their frequencies halved), and each group has the table that was the best for it in the round before. |
| `TableChoice.AssignGroups` | deps/bzip2/compress.c:342-435 | Every group gets the table that codes it in the fewest bits, and the symbols are counted for the table of their group. |
| `TableChoice.GroupCostsPacked` | deps/bzip2/compress.c:358-385 | The packed sums give the same costs as the plain ones. |
| `TableChoice.GroupCosts` | deps/bzip2/compress.c:389-393 | The cost of a group is the sum of its code lengths, for every table. |
| `TableChoice.Cheapest` | deps/bzip2/compress.c:399-401 | The table picked has the least cost. |
| `TableChoice.InitialTables` | deps/bzip2/compress.c:279-317 | The first tables split the alphabet into intervals, last table first: each is cheap in its own and dear elsewhere, and symbols behind the last interval do not occur. |
| `TableChoice.ChoiceSendable` | deps/bzip2/compress.c:455-458 | The numbers of tables and selectors fit their fields (assertions 3002 and 3003). |
| `BlockWriter.SendMTFValues` | deps/bzip2/compress.c:239-598 | The map, the codes and the symbols are written as the format prescribes. |
| `BlockWriter.PutData` | deps/bzip2/compress.c:545-594 | Every symbol is written with the table of its group of fifty. |
| `BlockWriter.PutMapping` | deps/bzip2/compress.c:495-515 | The map of bytes in use is written in rows of sixteen. |
| `BlockWriter.SelectorMtf` | deps/bzip2/compress.c:462-478 | The selectors are move-to-front coded, in place. |
| `BlockWriter.PutTables` | deps/bzip2/compress.c:531-539 | The code lengths are written as steps up and down. |
| `BlockWriter.AssignAll` | deps/bzip2/compress.c:481-492 | Every table gets its canonical codes (assertions 3004 and 3005 hold). |
| `HuffmanLengths.MakeCodeLengths` | deps/bzip2/huffman.c:63-148 | For 2 to 258 symbols and frequencies of up to 900001 in all, the lengths are 1 to maxLen and the code is complete (the Kraft sum is exactly 1). No lengths of any prefix code cost less for these frequencies, each taken as at least 1; or, if the cheapest lengths were too long, for the frequencies halved, by 1 + w / 2, as often as cheapest lengths were too long before. This comes to an end. |
| `HuffmanLengths.TooDeep` | deps/bzip2/huffman.c:124-147 | A code that is too long takes a weight that rescaling reduces: a Fibonacci bound on the depth. |
| `HuffmanTree.KraftEquation` | deps/bzip2/huffman.c:98-130 | The depths of the leaves of the tree fill the code space exactly. |
| `HuffmanOptimal.TreeOptimal` | deps/bzip2/huffman.c:98-130 | The depths of the leaves of a tree that was made by merging the two lightest roots again and again are the lengths of a cheapest code: for all weights, no lengths with a Kraft sum of at most 1 cost less. |
| `HuffmanOptimal.RootsOptimal` | deps/bzip2/huffman.c:102-117 | Why: at no time between two merges are there better lengths for the roots than their depths in the whole tree. |
| `HuffmanOptimal.Pair` | deps/bzip2/huffman.c:104-107 | Whatever lengths are given to the roots, the two lightest can have the same length, not 0, in the same code space and at no more cost. |
| `HuffmanOptimal.Shorten` | deps/bzip2/huffman.c:104-107 | A code that is the only longest one can be shortened by a bit. |
| `HuffmanOptimal.HeavierShorter` | deps/bzip2/huffman.c:63-148 | With a cheapest code a symbol of greater weight never has a longer code. |
| `HuffmanLengths.MergeOrder` | deps/bzip2/huffman.c:102-117 | Each merge takes two roots than which no other root is lighter, and the new weight is the sum of theirs. |
| `HuffmanForest.DepthFits` | deps/bzip2/huffman.c:29-31 | The depth in the low byte of a weight never overflows. |
| `Heap.UpHeap` | deps/bzip2/huffman.c:33-42 | The array is changed as a sift up changes the heap, in place. |
| `Heap.DownHeap` | deps/bzip2/huffman.c:44-59 | The array is changed as a sift down changes the heap, in place. |
| `Heap.SiftUpHeap` | deps/bzip2/huffman.c:33-42 | An entry that is sifted up leaves the heap in order and with the same entries. |
| `Heap.SiftDownHeap` | deps/bzip2/huffman.c:44-59 | An entry that is sifted down leaves the heap in order and with the same entries. |
| `Heap.RootLightest` | deps/bzip2/huffman.c:99-103 | The root of the heap has the least weight. |
| `Huffman.DecodeCode` | deps/bzip2/decompress.c:74-102 | Reading the canonical code of a symbol gives the symbol and uses up exactly its length, for all lengths in 1 to 20 that satisfy the Kraft inequality. |
| `Huffman.PrefixFree` | deps/bzip2/huffman.c:152-166 | No code is a prefix of another. |
| `Huffman.CodeFits` | deps/bzip2/huffman.c:159-165 | Every code number fits its length. |
| `HuffmanTables.AssignCodes` | deps/bzip2/huffman.c:152-166 | The codes assigned are the canonical ones. |
| `HuffmanTables.CreateDecodeTables` | deps/bzip2/huffman.c:170-205 | The tables limit, base and perm describe the canonical code. |
| `HuffmanTables.IndexFilled` | deps/bzip2/decompress.c:98-101 | A code that passes the limit test never leads beyond the entries of perm that were filled. |
| `HuffmanTables.ReadSymbol` | deps/bzip2/decompress.c:74-102 | Reading a symbol with the tables gives what the canonical code prescribes, errors included. |
| `BitStream.BitWriter.Put` | deps/bzip2/compress.c:73-78 | The low n bits of v are appended to what was written. |
| `BitStream.BitWriter.FinishWrite` | deps/bzip2/compress.c:46-54 | A last partial byte is filled up with zero bits. |
| `BitStream.BitWriter.PutUInt32` | deps/bzip2/compress.c:83-89 | A word is written as four bytes, high byte first. |
| `BitStream.BitReader.GetBits` | deps/bzip2/decompress.c:43-65 | The next n bits are read as a number, or the input is found to have ended. |
| `BlockBits.TakeWord` | deps/bzip2/decompress.c:241-249 | Four bytes written high byte first are read back as the word. |
| `BlockBits.MappingBack` | deps/bzip2/decompress.c:266-282 | Reading the map of bytes in use gives back the map that was written. |
| `BlockBits.SelectorsBack` | deps/bzip2/decompress.c:291-300 | Reading the unary selectors gives back the selectors that were written. |
| `BlockBits.TablesBack` | deps/bzip2/decompress.c:316-329 | Reading the steps gives back the code lengths that were written. |
| `BlockBits.CodesBack` | deps/bzip2/decompress.c:286-329 | Reading the codes of a block gives back all selectors and code lengths. |
| `BlockRoundTrip.ColumnRead` | deps/bzip2/decompress.c:349-486 | Reading the symbols of a column, in groups of fifty, gives back the column. |
| `Decompressor.Decompressor.Decompress` | deps/bzip2/bzlib.c:808-858 | Each call puts out the next bytes of the stream, exactly as many as there is room for unless the stream ends, and reports exactly the error that the stream calls for; a stream that overruns the selector arrays has an error of its own. |
| `Decompressor.Decompressor.OutputBlock` | deps/bzip2/bzlib.c:819-840 | Part of a block is put out; at its end its checksum is compared with the one stored, and combined with those before as `StreamEnd.DecodedExactly` states it bit by bit. |
| `StreamEnd.DecodedExactly` | deps/bzip2/bzlib.c:825-850 | The blocks of a stream are decoded, as their bytes in order, exactly when each has the checksum stored for it and the word at the end is the right one: bit j of it is the parity, over all blocks, of bit j - d modulo 32 of the checksum of the block that d others follow. |
| `StreamEnd.SentCombined` | deps/bzip2/compress.c:606-608 | The word that the compressor sends is this one. |
| `CrcLaws.CombinedMore` | deps/bzip2/compress.c:607-608 | Turning the checksum so far by one bit and adding that of one more block keeps it so. |
| `CrcLaws.CombinedOnce` | deps/bzip2/bzlib.c:847-848 | There is only one word that is right for the blocks. |
| `CrcLaws.CrcLinear` | deps/bzip2/bzlib_private.h:167-172 | For any table of a CRC the block checksum is linear in what it began with. |
| `CrcLaws.OneByteTells` | deps/bzip2/bzlib_private.h:167-172 | For any table of a CRC, two blocks that differ in one byte have different checksums. |
| `Decompressor.Decompressor.ReadSection` | deps/bzip2/bzlib.c:841-852 | The next section is read: a block, or the end with the combined checksum. |
| `Decompressor.ReadBlock` | deps/bzip2/decompress.c:241-492 | A block is read as the format prescribes, with every check on the way, and its output is prepared; a randomised block is an error. |
| `Decompressor.NextSection` | deps/bzip2/decompress.c:222-235 | The mark of a section tells a block from the end of the stream. |
| `BlockReader.ReadHeader` | deps/bzip2/decompress.c:197-209 | The stream header is recognised and gives the block size. |
| `BlockReader.ReadMapping` | deps/bzip2/decompress.c:266-282 | The map of bytes in use is read row by row. |
| `BlockReader.ReadSelectors` | deps/bzip2/decompress.c:291-300 | The selectors are read in unary into an array of 18002; a number that is too large is an error, and so is a selector behind the array. |
| `BlockReader.UndoSelectorMtf` | deps/bzip2/decompress.c:302-314 | The move-to-front coding of the selectors is undone in an array of their number or more. |
| `SelectorRoom.OverrunExactly` | deps/bzip2/decompress.c:289-299 | Reading the selectors of a block writes behind the array exactly when more than 18002 are announced and that many can be read. |
| `SelectorRoom.WithinArray` | deps/bzip2/decompress.c:289-299 | All selectors are written within the array, whatever the bits, if and only if at most 18002 are announced. |
| `SelectorRoom.OverrunBlock` | deps/bzip2/decompress.c:286-299 | A block that announces 18003 selectors and has them writes behind the array. |
| `BlockReader.ReadLength` | deps/bzip2/decompress.c:319-327 | A code length is read as steps; one outside 1 to 20 is an error. |
| `BlockReader.ReadCodes` | deps/bzip2/decompress.c:286-329 | The codes of a block are read, or the error on the way is reported, that of too many selectors included. |
| `ColumnReader.ReadColumn` | deps/bzip2/decompress.c:349-486 | The column is read into memory and its bytes are counted, or the error on the way is reported. |
| `ColumnReader.SymbolSource.Next` | deps/bzip2/decompress.c:74-102 | Each symbol is read with the table of its group of fifty. |
| `ColumnReader.ReadRun` | deps/bzip2/decompress.c:379-396 | The digits of a run are summed up; the guard on N stops runs that are too long. |
| `ColumnReader.TakeRun` | deps/bzip2/decompress.c:398-417 | A run of the byte in front is appended, as far as there is room. |
| `SlidingList.MtfArray.MoveFront` | deps/bzip2/decompress.c:423-474 | The sixteen sliding lines agree with a plain move-to-front list. |
| `SlidingList.MtfArray.Rebuild` | deps/bzip2/decompress.c:463-472 | Moving the lines back to the end of the array, in place, does not change the list. |
| `InverseSort.MakeCftab` | deps/bzip2/decompress.c:494-516 | The cumulated counts; the sanity checks on them cannot fail. |
| `InverseSort.LinkRows` | deps/bzip2/decompress.c:559-564 | Fast mode: each word links its row to the row that follows, over its own byte. |
| `InverseSort.LinkCycle` | deps/bzip2/decompress.c:526-545 | Small mode: the packed cells link the rows of the cycle of the origin to the rows that follow; all other rows keep their links to the rows before. |
| `InverseSort.ReverseCycle` | deps/bzip2/decompress.c:536-545 | Turning the links around ends, and does so exactly for the rows on the way: the others keep theirs. |
| `InverseSort.SetLL` | deps/bzip2/bzlib_private.h:458-473 | Setting a 20-bit cell changes no other cell. |
| `InverseSort.IndexIntoF` | deps/bzip2/bzlib.c:687-698 | The binary search finds the byte whose rows contain the index. |
| `BlockOutput.BlockOutput.GetFast` | deps/bzip2/bzlib_private.h:451-456 | Each step reads the next byte of the block; the bound check never fails. |
| `BlockOutput.BlockOutput.GetSmall` | deps/bzip2/bzlib_private.h:475-479 | Each step reads the same byte as in fast mode. |
| `BlockOutput.BlockOutput.OutputFast` | deps/bzip2/bzlib.c:589-681 | What is put out, and what is then still to come, are together what was to come; corruption is reported only for a bad block. |
| `BlockOutput.BlockOutput.OutputSmall` | deps/bzip2/bzlib.c:759-803 | The same as for fast mode. |
| `BlockOutput.BlockOutput.Fast` | deps/bzip2/decompress.c:559-574 | The block that is put out is the one the column and the origin stand for. |
| `BlockOutput.BlockOutput.Small` | deps/bzip2/decompress.c:524-555 | The block that is put out is the one the column and the origin stand for. |
| `BlockOutput.AfterCounted` | deps/bzip2/bzlib.c:653-660 | Four equal bytes and a count; a block that ends before the count is bad. |
| `BlockOutput.AfterShort` | deps/bzip2/bzlib.c:640-656 | A run of fewer than four bytes ends at another byte or at the end of the block. |
| `DeflateState.Conservation` | deps/zlib/deflate.c:1043-1108 | For every level from 1 to 9, strategy, window size, memory level, sequence of calls with input and flush requests, and answers to whether there is room for output: at every end of a block the tokens sent stand for exactly the input before it, no match reaches behind the input or the window, no block has more tokens than the buffer for symbols holds, and when a flush or finish is done the tokens stand for all input; it is left undone only for lack of room. No token after a full flush reaches behind it. And every token has its reason (`Matching.Explained`): without hash chains there are literals only; with run lengths all runs are sent as matches of distance 1, as long as can be; on levels 1 to 3 the longest match among the strings looked at is sent, the nearest one of that length; on levels 4 to 9 it is sent unless the next place has a longer one, and a literal only if there is none, or if it is too short for its distance or for filtered data, or if the next place has a longer one. |
| `DeflateState.Deflater.Run` | deps/zlib/deflate.c:804-1108 | Any calls, one after the other, keep the state valid and lose no input: it has been sent, or is in the window, or has not been read. |
| `DeflateState.Deflater.constructor` | deps/zlib/deflate.c:243-388 | A new state is valid for every level, strategy, window size and memory level; a window of 256 bytes is made one of 512. |
| `DeflateState.Deflater.Deflate` | deps/zlib/deflate.c:1043-1085 | One call, by whichever matcher level and strategy select: no input is lost, the answer says whether all of it has been sent, and each full flush that is done makes one more place to begin anew. |
| `Matching.NoneMissedSlow` | deps/zlib/deflate.c:1974-2098 | Levels 4 to 9, not filtered: where a string that a token before has made known, within the distance and at most 4096 back, is repeated for three bytes or more, a literal is sent only if the next place has a longer match or as many strings with the same hash as may be looked at are nearer. |
| `Matching.NoneMissedFast` | deps/zlib/deflate.c:1872-1967 | Levels 1 to 3: where a known string in reach is repeated for three bytes or more, a match is sent unless as many strings with the same hash as may be looked at are nearer. |
| `Matching.RunSent` | deps/zlib/deflate.c:2105-2171 | Run lengths: where the byte before is repeated r times, 3 to 258, as far as can be seen and sent, the token is the match of distance 1 and length r. |
| `Matching.PlacesAre` | deps/zlib/deflate.c:1647-1656 | The places in the reasons are those of the tokens in the input. |
| `DeflateState.ConfigurationIs` | deps/zlib/deflate.c:134-147 | The efforts of the nine levels. |
| `DeflateState.Deflater.DeflateFast` | deps/zlib/deflate.c:1872-1967 | Greedy matching: after every round the tokens stand for the input up to the current string and have their reasons; the answer says whether all input has been sent, and if not, why. |
| `DeflateState.Deflater.DeflateSlow` | deps/zlib/deflate.c:1974-2098 | Lazy matching: the same, where a match or a byte may be put off by one string, for which it is known what was found there; none is put off at the end. |
| `DeflateState.Deflater.DeflateRle` | deps/zlib/deflate.c:2105-2171 | Only runs of the last byte: the same, and every run is sent as a match. |
| `DeflateState.Deflater.DeflateHuff` | deps/zlib/deflate.c:2178-2207 | Only literals: the same. |
| `DeflateState.Deflater.SlowSearch` | deps/zlib/deflate.c:2006-2032 | If the previous match is shorter than `max_lazy_match`, no known string in reach is longer than what is found, but for those behind as many candidates as may be looked at, unless it is long enough; it is the nearest one of its length; and it is dropped only if at most 5 bytes long in filtered data, or of 3 bytes and more than 4096 back. |
| `DeflateState.Deflater.SlowStep` | deps/zlib/deflate.c:2003-2077 | The match that was put off is sent if the current string has no longer one; else the byte that was put off is a literal; the search at the current string is kept for the next round. |
| `DeflateState.Deflater.FastSearch` | deps/zlib/deflate.c:1901-1911 | What is found is the longest of the strings that must be looked at, the nearest one of its length. |
| `DeflateState.Deflater.FastStep` | deps/zlib/deflate.c:1893-1956 | The match that was found is sent if it has three bytes, else a literal. |
| `DeflateState.Deflater.RunStep` | deps/zlib/deflate.c:2126-2163 | A run of three or more of the last byte is sent as a match of distance 1, up to 258 and to the end of the input; else a literal. |
| `DeflateState.Deflater.FindRun` | deps/zlib/deflate.c:2126-2144 | The run is real, and no longer one can be seen and sent. |
| `DeflateState.Deflater.SeenSearched` | deps/zlib/deflate.c:1276-1417 | What the chains have shown, said of all places in the input that are known and in reach. |
| `DeflateState.Deflater.LongestMatch` | deps/zlib/deflate.c:1276-1417 | A match that is longer than the previous one is a repeat in the input, within the allowed distance and the input that is there. None of the strings that were looked at is longer, and no nearer one as long; these are all the strings in the chains with the hash of the current one, from the last one backwards, until one is too far away, there are as many as may be looked at, or the match is long enough. |
| `DeflateState.Deflater.FillWindow` | deps/zlib/deflate.c:1522-1643 | Input is read, the window is moved down and pending strings are inserted; no byte of input is lost, the hash chains and the hash stay right, and there is enough to look ahead or no more input. |
| `DeflateState.Deflater.Slide` | deps/zlib/deflate.c:1552-1561 | Moving the upper half of the window down keeps what the window holds and what the chains link. |
| `DeflateState.Deflater.InsertString` | deps/zlib/deflate.c:181-186 | A string is put in front of its chain, and the last string before it with the same hash is found, if there is one in the window. |
| `DeflateState.Deflater.FlushBlockOnly` | deps/zlib/deflate.c:1647-1656 | The tokens of the block become part of those sent, which then stand for all input up to the current string. |
| `DeflateState.Deflater.ForgetHistory` | deps/zlib/deflate.c:1069-1079 | After a full flush the hash table is cleared and the window starts anew; the place is one behind which no later token reaches. |
| `HashChains.Inserted` | deps/zlib/deflate.c:181-186 | Linking a string into its chain keeps all chains right: each leads from string to string with the same hash, and leaves none out. |
| `HashChains.LinkedDown` | deps/zlib/deflate.c:204-228 | Moving all entries of the tables down by the window size keeps the chains right: they lead to the same strings, without those that have left the window. |
| `HashChains.ThirdByte` | deps/zlib/deflate.c:1276-1417 | Two strings with the same hash that agree in two bytes agree in the third, so the matcher need not look at it. |
| `RollingHash.ThirdSame` | deps/zlib/deflate.c:153-163 | The hash of three bytes tells the third, given the first two. |
| `RollingHash.Forget` | deps/zlib/deflate.c:153-163 | After three updates the hash no longer depends on earlier bytes. |
| `Lz77.CopyRepeat` | deps/zlib/deflate.c:1908-1911 | A match at a place where the input repeats itself, overlapping or not, adds exactly the repeated bytes. |
| `Lz77.CoversBlock` | deps/zlib/deflate.c:1647-1656 | Sending a block whose tokens stand for its input extends what the tokens sent stand for. |
| `Lz77.FromHere` | deps/zlib/zlib.h:313-317 | What is sent after a full flush can be decoded without anything that was sent before it. |
| `Lz77.BetweenCuts` | deps/zlib/deflate.c:1647-1656 | The tokens between any two ends of blocks stand for the input between them. |
| `FixedStream.RoundTrip` | deps/zlib/deflate.c:804-1108 | From input to input: whatever the input and the calls that end with a finish, the level, the strategy and the sizes, and however the input of inflate arrives, when all blocks are sent with the fixed codes the two loops of inflateBack give back exactly the input; inflate fails only if no more of its own input comes when it asks for some. |
| `FixedStream.SendFixed` | deps/zlib/trees.c:976-1009 | A block is sent as its header, its tokens and the end of the block, and the last one is filled up with zeros to a byte; the bits of earlier blocks stay as they are. |
| `FixedStream.InflateAll` | deps/zlib/infback.c:288-312 | Block by block the stream of a run of deflate is read as the input it was made from, and the last block is found. |
| `FixedStream.FixedTables` | deps/zlib/infback.c:82-106 | Building the tables of the fixed codes succeeds, and they decode these codes. |
| `FixedStream.ReadBack` | deps/zlib/infback.c:482-605 | What inflate makes of a block that deflate has sent is what the tokens stand for; no distance is overlooked, and reading stops behind the block. |
| `DeflateBits.BlockBack` | deps/zlib/trees.c:1043-1093 | For any two codes and tables for them: the items of a block are its tokens and then its end, whatever follows. |
| `DeflateBits.TokenBack` | deps/zlib/trees.c:1057-1083 | The item that a token is read as is this token, for all lengths, distances and codes. |
| `DeflateOutput.Output.CompressBlock` | deps/zlib/trees.c:1043-1093 | Sending a block whose symbols lie in the upper part of the same buffer: each symbol is read before the bits reach it, so that the bits are those of the tokens that were there. |
| `FixedCodes.FixedInPlace` | deps/zlib/deflate.c:327-363 | With the fixed codes the bits never reach the symbols that have not been read: for a buffer of n symbols at least n - 3 bits are left at every symbol, the bits left over from the block before included. |
| `DeflateOutput.Output.SendBits` | deps/zlib/trees.c:207-221 | The bits of a value are appended to those that are pending, sixteen of them going into the buffer when they are complete; the upper part of the buffer is not touched. |
| `DeflateOutput.Output.BiFlush` | deps/zlib/trees.c:1152-1164 | Moving whole bytes out of the bit buffer changes no pending bit and leaves less than a byte. |
| `DeflateOutput.Output.BiWindup` | deps/zlib/trees.c:1169-1179 | The last byte is filled up with zeros. |
| `DeflateOutput.Output.FlushPending` | deps/zlib/deflate.c:771-793 | Putting out what is pending loses no bit. |
| `GenCodes.GenCodes` | deps/zlib/trees.c:572-606 | Every symbol with a length gets the code of RFC 1951 for it, bits reversed; no code is cut off by its 16 bits. |
| `GenCodes.BiReverse` | deps/zlib/trees.c:1137-1147 | The bits of a code are reversed. |
| `FixedCodes.InitLiterals` | deps/zlib/trees.c:295-307 | The tree of the fixed codes of literals and lengths. |
| `FixedCodes.InitDistances` | deps/zlib/trees.c:309-313 | The tree of the fixed codes of distances, which are not generated, has the codes of 32 distances all the same. |
| `FixedCodes.FixedFills` | deps/zlib/trees.c:295-307 | The fixed codes fill the code space exactly. |
| `TreeTables.InitLengths` | deps/zlib/trees.c:257-275 | Each length gets a code with which inflate reads it, and 258 the one without extra bits. |
| `TreeTables.InitDists` | deps/zlib/trees.c:277-293 | Each distance up to 32768 gets the code with which inflate reads it, with one entry for each 128 distances from 257 on. |
| `InflateTable.InflateTable` | deps/zlib/inftrees.c:32-303 | For all code lengths of at most 15 bits: the lengths are refused exactly when they are over-subscribed or incomplete (but for a single code of one bit); otherwise the tables lead every bit string that begins with the code of a symbol to the entry of this symbol, and every other bit string to an invalid code, unless the space is used up. |
| `DecodingTable.EnterCode` | deps/zlib/inftrees.c:219-243 | Filling in all entries that end with the bits of a code makes the table tell it from all strings, and leaves all codes that were entered before. |
| `DecodingTable.NewSubTable` | deps/zlib/inftrees.c:257-287 | Starting a sub-table for codes that begin with new root bits takes nothing away from the codes that were entered before. |
| `DeflateCode.CodeRange` | deps/zlib/inftrees.c:130-144 | The strings that begin with a code are exactly those in its share of the code space. |
| `DeflateCode.CodesApart` | deps/zlib/inftrees.c:130-144 | No string begins with the codes of two symbols. |
| `DeflateCode.CodeFor` | deps/zlib/inftrees.c:130-144 | Every string in the part of the code space that is taken begins with a code. |
| `InflateSpec.BuiltUsable` | deps/zlib/inftrees.c:32-303 | Tables that have been built can be used for decoding: whatever the bits, the entry they lead to is that of a symbol of the alphabet or the invalid one. |
| `InflateSpec.RootByBits` | deps/zlib/infback.c:494-498 | With only some of the bits the entry that is looked at is the right one, or it asks for more bits, and then the right one does so too. |
| `InflateSpec.SubByBits` | deps/zlib/infback.c:501-506 | The same for the entry of a sub-table. |
| `InflateBack.Inflater.constructor` | deps/zlib/infback.c:276-287 | The state in which decoding begins is one from which items can be read. |
| `InflateBack.Inflater.ReadCode` | deps/zlib/infback.c:494-509 | Taking in bytes one at a time, only as they are needed, a code is read as the tables prescribe for all bits; without success the bits do not hold the code, or there was no more input. |
| `InflateBack.Inflater.LenStep` | deps/zlib/infback.c:482-605 | One round of the slow loop is one item; without success the bits do not hold the item, or there was no more input. |
| `InflateBack.Inflater.CopyMatch` | deps/zlib/infback.c:586-604 | Copying a match in stretches around the end of the window, handing it over when it is full, adds the bytes that the match stands for. |
| `InflateBack.Inflater.SlowReach` | deps/zlib/infback.c:578-604 | A distance is refused exactly when it reaches behind what has been put out or behind the window. |
| `InflateBack.Inflater.FastItem` | deps/zlib/inffast.c:116-291 | One round of the fast loop is the same item, without looking at how much input and room there is, unless a distance that is too far is overlooked; exactly when it is. |
| `InflateBack.Inflater.FastCopy` | deps/zlib/inffast.c:168-275 | Copying from the end of the window and then from the output, three bytes at a time, adds the bytes that the match stands for. |
| `InflateBack.Inflater.InflateFast` | deps/zlib/inffast.c:50-323 | With at least six bytes of input and room for 258 no read or write is out of bounds, and what has happened is some number of items. |
| `InflateBack.Inflater.GiveBack` | deps/zlib/inffast.c:292-297 | Giving back whole bytes leaves the bits that were left. |
| `InflateBack.Inflater.SameReading` | deps/zlib/inffast.c:292-297 | With less than a byte in the buffer the rest of the bits determines the reading state. |
| `InflateBack.Inflater.LenMode` | deps/zlib/infback.c:482-605 | Either loop, as input and room allow, does some number of items. |
| `InflateBack.Inflater.DecodeBlock` | deps/zlib/infback.c:482-605 | A whole block by both loops in any mixture: the output, the bits that are left and the outcome are those of reading the items one after the other, unless a distance is overlooked; without success the bits do not hold the next item, or there was no more input. |
| `InflateBack.NotCaught` | deps/zlib/inffast.c:168-188 | A distance that the slow loop refuses and the fast loop takes. |
| `Crc32Z.Crc32z` | deps/zlib/crc32.c:739-1060 | The checksum in five braids of words, from any alignment, for any length and any checksum so far, is the one computed byte by byte; complemented, it is the remainder of the message times x^32, with the complement of the checksum so far added to the 32 highest coefficients. |
| `Crc32Z.BlockOn` | deps/zlib/crc32.c:824-884 | All five braids go on by one block. |
| `Crc32Z.LastBlock` | deps/zlib/crc32.c:886-906 | The last block brings the braids together into the register. |
| `Crc32Z.Crc32Combine` | deps/zlib/crc32.c:1072-1081 | The checksum of two parts together, from those of the parts and the length of the second. |
| `Crc32.CombineParts` | deps/zlib/crc32.c:1072-1081 | Why: the checksum of a concatenation is the first one times a power of x, plus the second one. |
| `Crc32.FoldPlus` | deps/zlib/crc32.c:33-66 | The register is linear in what it began with. |
| `CrcBraid.CrcWord` | deps/zlib/crc32.c:717-724 | The register after a word, from the word with the register added. |
| `CrcBraid.BraidWord` | deps/zlib/crc32.c:849-890 | Eight tables take a word to what it adds to the register one block later. |
| `CrcBraid.WordBytes` | deps/zlib/crc32.c:828-845 | A word that is read from the buffer has its bytes, the lowest first. |
| `CrcTables.MakeCrcTable` | deps/zlib/crc32.c:279-288 | The table has what each byte adds to the register. |
| `CrcTables.MakePowers` | deps/zlib/crc32.c:290-293 | Entry k of the table is x to the power of 2 to the power k. |
| `CrcTables.X2nmodp` | deps/zlib/crc32.c:566-580 | x to the power of n times 2 to the power k, for all n and k, though the index of the table is cut to five bits. |
| `CrcTables.Braid` | deps/zlib/crc32.c:505-523 | The tables for the braids, for any number of braids and bytes of a word. |
| `CrcPowers.PowerSquares` | deps/zlib/crc32.c:571-578 | The 32 entries serve for every power of 2: the 33rd square is the first one again. |
| `CrcField.Multmodp` | deps/zlib/crc32.c:542-561 | Multiplying with a mask that goes down ends and gives the product, for a first factor that is not zero. |
| `CrcField.ProductSwap` | deps/zlib/crc32.c:537-561 | The product is commutative. |
| `CrcField.ProductAssociates` | deps/zlib/crc32.c:537-561 | The product is associative. |
| `CrcField.ShiftedProduct` | deps/zlib/crc32.c:537-561 | n steps of the register without input multiply it by x to the power n. |
| `CrcPolynomial.ResidueProduct` | deps/zlib/crc32.c:537-561 | The product of words is the product of polynomials over GF(2), taken modulo the polynomial of the CRC. |
| `CrcPolynomial.PolyIsZero` | deps/zlib/crc32.c:141 | The constant POLY is the polynomial x^32 + x^26 + ... + 1, reflected and without its highest power. |
| `CrcPolynomial.ChecksumIs` | deps/zlib/crc32.c:739-1060 | The checksum of a message is the complement of the remainder of x^32 times the message, after its 32 highest coefficients have been complemented, divided by the polynomial of CRC-32. |
| `CrcPolynomial.CrcIsRemainder` | deps/zlib/crc32.c:739-1060 | The same for a checksum that goes on from another one. |
| `CrcPolynomial.FoldIsRemainder` | deps/zlib/crc32.c:279-288 | The register after a message is the remainder of the message, as a polynomial, times x^32. |
| `Adler32.Adler32z` | deps/zlib/adler32.c:63-131 | The checksum with remainders taken every 5552 bytes, by division or by shifts, is that with remainders at every byte. |
| `Adler32.Deferred` | deps/zlib/adler32.c:98-110 | The remainders may be taken at the end. |
| `Adler32.SumsFit` | deps/zlib/adler32.c:11-17 | The sums of 5552 bytes and those of less than 16 fit their words and the short remainder. |
| `Adler32.Mod28Is` | deps/zlib/adler32.c:33-37 | The short remainder is the remainder for a little more than 28 bits. |
| `Adler32.ModIs` | deps/zlib/adler32.c:38-42 | The remainder by shifts is the remainder for 32 bits. |
| `Adler32.Mod63Is` | deps/zlib/adler32.c:43-56 | The remainder by shifts is the remainder for 63 bits. |
| `Adler32.Joined` | deps/zlib/adler32.c:168 | The stored checksum has the first sum as its lower half and the second one as its upper half. |
| `Adler32.Combine` | deps/zlib/adler32.c:143-169 | The checksum of two parts together, from those of the parts and the length of the second; a negative length gives all ones. |
| `Sfmt.FillAndRefill` | deps/SFMT/SFMT.c:95-128 | The array has the words that follow the state, and the state is left as their last ones; refilling the state instead goes on with the same words. Each word is, bit by bit, what the recurrence makes of those `n`, `n - pos1`, 2 and 1 places before. |
| `Sfmt.DoRecursion` | deps/SFMT/SFMT-common.h:142-162 | One step of the recurrence, in place, where the result may be one of the arguments: each of the 128 bits is the sum of five bits, of the first argument, of the same shifted up by bytes, of the masked second one shifted down in its word, of the third one shifted down by bytes and of the fourth one shifted up in its word. |
| `Sfmt.NextRecurs` | deps/SFMT/SFMT-common.h:142-162 | What is computed, word by word, is this sum at every bit, for all parameters. |
| `Sfmt.ShiftedBits` | deps/SFMT/SFMT-common.h:60-122 | Each bit of the 128 comes from the place that is so many bytes below or above it. |
| `Sfmt.ShiftsWhole` | deps/SFMT/SFMT-common.h:60-122 | The shifts by bytes, done with words of 32 and 64 bits, are those of all 128 bits. |
| `Recurrence.GenRandArray` | deps/SFMT/SFMT.c:95-128 | Filling an array of any size from the state follows the recurrence, across the places where the reads change from the state to the array. |
| `Recurrence.SfmtGenRandAll` | deps/SFMT/SFMT.c:245-263 | Refilling the state in place gives the next words of the sequence. |
| `Recurrence.ExtendIs` | deps/SFMT/SFMT.c:95-128 | There is exactly one continuation that follows the recurrence. |
| `Recurrence.ExtendTwice` | deps/SFMT/SFMT.c:95-128 | Two fills are one longer fill. |

## Left out

- Decompressor.Decompressor.Decompress: resuming in the middle of a section is not modelled; all input is given at once, and input that ends early is the error `UnexpectedEnd`, where the C code would ask for more.
- Decompressor.ReadBlock: randomised blocks end in the error `Randomised`; the encoder never writes them.
- MainSort.Sort: on giving up (negative budget) the contract says nothing of the order of the pointers; the block is then sorted anew by the fallback sort. Of the work that is counted off the budget it says that there is none unless two rotations share a long beginning, not how much there is.
- Codec.DecompressSlices: that a bad stream is found to be bad when enough output is asked for is not stated; what is reported is always true of the stream.
- Codec.CompressOnce: how much room is enough is not stated.
- What bzip2 does after it has written behind its selector arrays; and that these arrays keep their content from one block to the next (they are taken anew here).
- Memory that the C code of bzip2 shares or reuses: the sorter's class array, the descriptors and the block are separate here (the block is still rebuilt by `FallbackSort.Reconstruct`, whose contract asks nothing of the old content), and the arrays of a block are allocated for each block.
- The capacity of the output area behind a block of the bzip2 encoder: it is an unbounded sequence here.
- Return codes of bzip2 for null pointers, for allocation failure and for bad parameters, counters of total input and output, verbosity, and the stdio layer.
- The constants of the checksum table of bzip2.
- zlib: how the codes of a dynamic block are chosen and sent (`build_tree`, `gen_bitlen`, `send_all_trees`), stored blocks (`deflate_stored`, and the empty one that marks a flush), changing the parameters between calls, preset dictionaries, and the zlib and gzip headers and trailers.
- DeflateOutput.Output.CompressBlock: that the codes of a dynamic block keep the bits behind the symbols is a precondition and not proved; the source argues with the average over the block (`deps/zlib/deflate.c:356-363`), which says nothing about the beginning of one.
- FixedStream.RoundTrip: the blocks are sent one after the other when the run is over, with room for all output, and not in between the calls; `inflate` reads them into tables of their own for literals and distances, built as with `BUILDFIXED`.
- DeflateState.Deflater.Deflate: whether there is room for output is a function that is asked each time the C code looks at `avail_out`; the output itself is not modelled.
- DeflateState.Conservation: of strings that get their third byte only in a later call, after their place has been passed, the reasons for the tokens do not say that they are known, though the last two are inserted then (`deps/zlib/deflate.c:1579-1598`).
- The zlib variants for other platforms: `FASTEST`, `UNALIGNED_OK`, assembler matchers, 16-bit `int`, big-endian words and words of 4 bytes in the CRC, the ARM CRC instructions.
- InflateTable.InflateTable: that the space reserved for a table is always enough is not proved; the contract allows for the return value that says it is not.
- InflateBack.Inflater.DecodeBlock: the block headers, stored blocks and the construction of the code lengths are not modelled, nor is an output function that fails; what the fast loop copies for a distance that it overlooks is not described. A table entry outside of the table reads as an invalid code.
- InflateBack.Inflater.InflateFast: it is modelled as `inflateBack` uses it, where the window is the output.
- Adler32.Adler32z: the two sums given must be reduced, as those of every checksum are.
- SFMT: the SIMD, big-endian and 64-bit variants, the parameters of the generators (they are arguments here), seeding, and reading numbers out of the state.
