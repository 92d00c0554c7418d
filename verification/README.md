# Models of zlib, the ordered set, the number printer and the logger

The modules here model five parts of the repository and prove what they promise, for all inputs, all runs and all
reachable states.

**DEFLATE** (zlib 1.2.11). The encoder: the hash chains and the window of deflate.c, the four match strategies, the
tally, the Huffman trees with their length limit, the choice between stored, fixed and dynamic blocks, and the bit
buffer. The decoder: the two-level tables, the states of inflate with their pauses, the round window and the fast loop.
`BlockMachine` is the reference both are measured by: a machine that reads bits by the meaning of the codes, without
tables, windows or buffers. Encoder and decoder are classes with the fields of the C structures, and each method is
proved to do steps of that machine or to append the bits it reads back. `RoundTrip` joins the two sides.

**The ordered set** (skiplist.c). Nodes with a forward link and a span in each of their levels. The valid lists are those
whose links, spans, backward links and tail are all determined by one strictly sorted sequence of keys and the heights of
the nodes; every operation is stated on that sequence.

**The number printer** (dtoa.c). Numbers in arrays of 32-bit words, with their carries and borrows, up to the correctly
rounded decimal digits of a quotient.

**The checksums** (crc32.c, adler32.c). The fast loops against one bit or one byte at a time, the CRC against the division
of polynomials, and the combination of two checksums.

**The logger** (lua-log.c). The steps of its two threads, in any order.

The modules follow the files of the source: `Bits` to `Inftrees` and `Lookup` (codes and tables), `PrefixCodes` (which
lengths make a code), `TableSpace` and `EnoughSpace` (how large tables get), `Heap` to `BuildTree` (Huffman trees), `Tally`
to `FlushBlock` (blocks), `Blocks`, `Streams`, `Layout` and `Refusals` (the format, read back and turned down),
`BlockChoice` and `ChoiceLimits` (which block), `InflateState` to `Chunking` (the decoder), `RollingHash` to `DeflateRle`
(the encoder), `MatchSearch`, `ChainSearch` and `Parsing` (its choices in terms of the input alone), `RoundTrip`, `Skip*`,
`Big*` to `Dtoa`, `Crc*`, `Adler*`, `Logger`. Numbers are unbounded, and the width of a variable of the source is written out where it matters: the 16-bit
bit buffer, the wrap-around of match_start, the carries of words, the sums of Adler-32, the length of a rank range.

## What the proofs found

- The comment at work/3rd/zlib/trees.c:651 says that a forced node is 0 or 1. When the only symbol in use is 1, it is 2; the
  model follows the code.
- gen_bitlen cuts a tree only where it must: since of equal frequencies the lower tree is merged first, a tree is as low as
  any optimal code allows (`TreeHeight.CutNotFitting`), so that `BuildTree.BuildTree` is optimal exactly if an optimal
  code fits the limit.
- _tr_flush_block does not always take the shortest block: work/3rd/zlib/trees.c:975 takes the static trees for Z_FIXED even
  where others are shorter, and trees.c:959 takes a stored block that is a byte longer than the codes when stored_len + 4 is
  just their length. `BlockChoice.ShortestIff` says that there are no other cases at a byte boundary, `ChoiceLimits` gives one of each,
  and `BlockChoice.NearlyShortest` bounds the loss everywhere.
- The sizes 852 and 592 of work/3rd/zlib/inftrees.h:49-50, found there by an exhaustive search, are enough for every code
  that is not turned down: `TableSpace.LenSpace`, `TableSpace.DistSpace`. The check of inftrees.c:209 and 278 never fails for
  them, and the round trip holds without it.
- The string at the very start of the window is never tried as a match, because 0 ends a chain (work/3rd/zlib/deflate.c:1249).
  `MatchSearch.LongestAt` therefore depends on where the window starts, and on nothing else but the input and the parameters.
- work/3rd/lua-zset/lua-skiplist.c:99-108 keeps the length of a rank range in an int and walks from its first rank only. A
  range whose length does not fit loses elements, and one that starts outside the list is empty: `SkipQueries.GetRankRange` says
  exactly when, `SkipQueries.LongRange` and `SkipQueries.StartOutside` give inputs.
- work/common/luaclib_src/lua-log.c:342-371 drops messages exactly if more than 25 * 511 come between two swaps:
  `Logger.NothingLost`, `Logger.BurstLost`.
- work/3rd/zlib/adler32.c:75-83 reduces the second sum by one subtraction when there is a single byte. That is right for
  every checksum, but not for every number: `Adler.Adler32Z` says exactly when, `Adler.NotContinued` gives one.
- work/3rd/lua-cjson/dtoa.c:1032-1065 compares lengths first, so that a zero of one word and a zero of none differ:
  `Bigints.Cmp` says that no other numbers do. The digit loop never meets two such zeros.

## Model

| member | source | states |
|---|---|---|
| `Heap.PqDownHeap` | work/3rd/zlib/trees.c:451-474 | Sifting `start` down turns a heap from `start + 1` on into a heap from `start` on, under the order of frequency and then depth; the array holds the same nodes as before. |
| `HuffmanMerge.PqRemove` | work/3rd/zlib/trees.c:430-435 | The node taken out is a least one of those in the heap, by frequency and then by depth, the others are still a heap, and no node is lost or doubled. |
| `HuffmanInit.CollectUsed` | work/3rd/zlib/trees.c:625-639 | The heap array lists exactly the symbols of frequency above 0, in order, as trees of height 0; `max_code` is the last of them or -1; all other lengths are 0. |
| `HuffmanInit.ForceTwo` | work/3rd/zlib/trees.c:641-653 | Afterwards at least two symbols are counted; the ones forced have frequency 1 and are paid for in opt_len and static_len, which fall by exactly what those symbols will cost. |
| `HuffmanTree.Heapify` | work/3rd/zlib/trees.c:655-658 | The collected nodes become a heap, with the same contents. |
| `HuffmanTree.MakeTree` | work/3rd/zlib/trees.c:660-687 | The merges end with one root; every symbol and every node made is the son of exactly one node, parents come before their sons in heap[heap_max..], no prefix code for the symbols costs less in total than the merges did, and none of that cost makes a lower tree. |
| `HuffmanBound.MergeBound` | work/3rd/zlib/trees.c:660-683 | If a bound on cost and height holds for all prefix codes after the two least trees are merged, least by weight and then by height, it holds with the two weights added for all prefix codes before: greedy merging loses nothing, and no height either. |
| `HuffmanMerge.TallWeighs` | work/3rd/zlib/trees.c:660-683 | A tree of height h weighs at least 2^(h/2), because the sons of its higher son were merged before both its sons. |
| `HuffmanMerge.HeightFits` | work/3rd/zlib/trees.c:670-672 | While frequencies add up to less than 2^16 all heights are below 32, so that the depth kept in 8 bits never wraps round. |
| `TreeHeight.LowUncut` | work/3rd/zlib/trees.c:508-531 | Nothing is cut from a tree that is no higher than the limit. |
| `TreeHeight.CutNotFitting` | work/3rd/zlib/trees.c:508-531 | Where a tree is cut, no optimal prefix code whatever is within the limit. |
| `FirstPass.AssignDepths` | work/3rd/zlib/trees.c:506-529 | After the first pass each node is one level below its parent, cut at the limit; bl_count, opt_len and static_len are the exact counts and sums over the leaves, and `overflow` counts the sons cut. |
| `TreeLengths.LeavesRoom` | work/3rd/zlib/trees.c:508-531 | The leaves take 2^max units of code space and one more for each node made that was cut at the limit. |
| `LengthRepair.RepairCounts` | work/3rd/zlib/trees.c:534-546 | The repair loop always finds a length to move a leaf down from and ends with counts of as many leaves as before that fill exactly 2^max_length; some leaf keeps the length max_length. The counts up to a length stay as they are if and only if the longer leaves below max_length can take in all overlong codes, one of length b taking in 2^(max_length - b) - 1. |
| `SecondPass.DealLengths` | work/3rd/zlib/trees.c:548-562 | The lengths are dealt out to the leaves again so that they have the repaired counts, and opt_len changes by exactly what the new lengths cost more or less. |
| `BitLengths.OptimalFair` | work/3rd/zlib/trees.c:486-562 | In an optimal code that fits the code space a less frequent symbol never has the shorter code. |
| `BitLengths.GenBitlen` | work/3rd/zlib/trees.c:486-562 | The lengths fill 2^max_length exactly, none is above the limit or 0, a less frequent symbol never has the shorter one, the counts and both costs are exact, and no prefix code at all is shorter in total if and only if some shortest one is within the limit. |
| `GenCodes.BiReverse` | work/3rd/zlib/trees.c:1158-1168 | The result is the number whose low `len` digits are those of `code` in the opposite order. |
| `GenCodes.GenCodes` | work/3rd/zlib/trees.c:572-605 | Every used symbol of the array gets the reversed canonical code of its length; all other entries stay as they were. |
| `Agreement.StoredPrefixFree` | work/3rd/zlib/trees.c:572-605 | No bit string begins with the codes stored for two different symbols. |
| `Agreement.StoredFound` | work/3rd/zlib/inftrees.c:140-255 | A table made from the lengths alone finds every symbol, with its length, behind the code that gen_codes stored for it, whatever bits follow. |
| `BuildTree.BuildTree` | work/3rd/zlib/trees.c:615-697 | For every frequency count: the code is complete and within the limit, the symbols counted and no others have codes and their canonical codes are stored, a less frequent symbol never has the shorter code, and opt_len and static_len grow by exactly what the symbols take. The total is least among all prefix codes if and only if some prefix code with that total is within the limit, and always if no length reaches the limit. |
| `CodeRuns.ScanTree` | work/3rd/zlib/trees.c:703-742 | The counts added are those of the run codes that `CodeRuns.SendTree` sends for the same lengths; the guard behind the lengths is set. |
| `CodeRuns.SendTree` | work/3rd/zlib/trees.c:748-793 | The stream gets exactly the run codes of the lengths, in the given code length code. |
| `RunReader.ReadRuns` | work/3rd/zlib/inflate.c:959-1005 | The decoder, reading what send_tree sends for any lengths, gets back these lengths, whatever it has read before, without a repeat error. |
| `BlTree.BuildBlTree` | work/3rd/zlib/trees.c:799-826 | The code length code is built for the counts of all runs of both trees, with lengths below 8; as few of its lengths are sent as can be; opt_len grows by exactly the bits of the header. |
| `BlTree.SomeBlCode` | work/3rd/zlib/trees.c:808-819 | Some length from 1 to 15 is always sent, so that the search for the last nonzero code length ends at 3 or above. |
| `HeaderCost.RunsCost` | work/3rd/zlib/trees.c:748-793 | The run codes sent take exactly the bits that their counted symbols add up to. |
| `BitWriter.BitBuffer.SendBits` | work/3rd/zlib/trees.c:184-226 | The stream grows by the low `length` bits of the value, lowest first, through the 16-bit buffer. |
| `BitWriter.BitBuffer.BiFlush` | work/3rd/zlib/trees.c:1173-1185 | The stream stays the same, and fewer than 8 bits of it are left in the buffer. |
| `BitWriter.BitBuffer.BiWindup` | work/3rd/zlib/trees.c:1190-1203 | The stream is padded with fewer than 8 zero bits to whole bytes, all of which are put out. |
| `StaticInit.InitLengths` | work/3rd/zlib/trees.c:255-268 | The tables filled step by step give for every length its code and for every code its base, length 258 having a code of its own. |
| `StaticInit.InitDistances` | work/3rd/zlib/trees.c:270-286 | The same for all 32768 distances, the upper ones looked up by their high bits. |
| `Symbols.LengthAgrees` | work/3rd/zlib/inftrees.c:60-65 | For every length the compressor's code and extra bits are those from which the decoder's base and extra tables rebuild it. |
| `Symbols.DistAgrees` | work/3rd/zlib/inftrees.c:66-73 | The same for every distance. |
| `Layout.LengthFormula` | work/3rd/zlib/inftrees.c:60-65 | The same for length codes: from the ninth on 3 + (4 + c % 4) * 2^e for e = c / 4 - 1, and 258 for the last. |
| `Layout.DistFormula` | work/3rd/zlib/inftrees.c:66-73 | The base and the extra bits of every distance code by formula: from the fifth on 1 + (2 + c % 2) * 2^e for e = c / 2 - 1. |
| `Layout.FarthestIs` | work/3rd/zlib/inftrees.c:66-73 | The farthest distance is 2^15. |
| `Layout.CodesAre` | work/3rd/zlib/trees.c:120-136 | The three codes have 286, 30 and 19 symbols; lengths go up to 15, the last before the repeats, and to 7, the most that three bits hold. |
| `Layout.FixedCodeIs` | work/3rd/zlib/trees.c:291-301 | The code of every literal and length in a fixed block, from the lengths alone: 0x30 + s in 8 bits, 0x190 + s - 144 in 9, s - 256 in 7 and 0xC0 + s - 280 in 8. |
| `Layout.FixedDistIs` | work/3rd/zlib/trees.c:302-305 | The code of a distance in a fixed block is the number of the symbol in five bits. |
| `BlockWriter.CompressBlock` | work/3rd/zlib/trees.c:1064-1109 | The stream grows by the codes and extra bits of every token and the end-of-block code, in any code that has a code for each of them. |
| `BlockWriter.SendAllTrees` | work/3rd/zlib/trees.c:834-857 | The stream grows by the header: the three counts, the code length code in its transmission order, and both runs of lengths; `Layout.HeaderLayout` says where and in which order. |
| `Layout.RepeatRange` | work/3rd/zlib/trees.c:768-785 | The repeat codes stand for 3 to 6, 3 to 10 and 11 to 138 lengths. |
| `RunCounts.RunTakes` | work/3rd/zlib/trees.c:748-793 | How many codes a run of equal lengths is sent with: zeros 138 at a time, others once and then 6 at a time, and fewer than three left over one by one. |
| `Layout.HeaderLayout` | work/3rd/zlib/trees.c:839-850 | The numbers in their places: 5, 5 and 4 bits for the counts less 257, 1 and 4, and then three bits for each length in the order given by the formula. |
| `BlockWriter.TrStoredBlock` | work/3rd/zlib/trees.c:863-880 | The stream grows by a stored block of the bytes given, aligned to a byte boundary, with its length and the complement. |
| `Layout.StartLayout` | work/3rd/zlib/trees.c:869 | A block starts with a bit for the last block and two for its kind: 00 stored, 10 static, 01 dynamic, in stream order. |
| `Layout.StoredLayout` | work/3rd/zlib/trees.c:863-880 | Behind the three bits of the start there are zero bits up to a byte boundary, the length in 16 bits, 16 bits that all differ from these, and the bytes. |
| `Tally.BlockCost` | work/3rd/zlib/trees.c:1014-1058 | The data of a block take exactly the bits that its tallied frequencies add up to. |
| `FlushBlock.BlockState.TrTally` | work/3rd/zlib/trees.c:1014-1058 | The token joins those collected and its frequencies count it; the result says whether the buffer is full. |
| `FlushBlock.BlockState.BuildTrees` | work/3rd/zlib/trees.c:923-944 | The header is made of the trees built for the tokens; opt_len is exactly the bits of header and data with them, static_len exactly the bits of the data with the static trees. |
| `FlushBlock.BlockState.TrFlushBlock` | work/3rd/zlib/trees.c:911-1007 | One block is appended that stands for the tokens collected or the bytes given. At level 0 it is stored. Otherwise it is stored if and only if the bytes are at hand and stored_len + 4 is no more than the fewer bytes of the two coded blocks; if not, it has the dynamic trees, those built for the tokens and still in the arrays, if and only if they take fewer bytes than the static ones and the strategy is not Z_FIXED. After the last block the stream ends on a byte boundary. |
| `BlockChoice.NearlyShortest` | work/3rd/zlib/trees.c:939-1000 | Without Z_FIXED, wherever the block begins: one with dynamic trees is never longer than another, and any other by a byte at most, or by two if a stored one begins with the last two bits of a byte. |
| `BlockChoice.ShortestIff` | work/3rd/zlib/trees.c:939-1000 | At a byte boundary no other block is shorter if and only if stored_len + 4 is not just the fewer bytes of the coded blocks, and Z_FIXED does not rule out dynamic trees that would be shortest. |
| `ChoiceLimits.StaticNotShortest` | work/3rd/zlib/trees.c:975 | For a thousand zeros Z_FIXED takes 300 bytes more than the dynamic trees, whichever of them are built. |
| `ChoiceLimits.StoredNotShortest` | work/3rd/zlib/trees.c:959-960 | Fifteen bytes 144, 146, .., 172 are stored in 20 bytes where the static trees take 19, and after six bits they fill 21 bytes instead of 19, whichever dynamic trees are built. |
| `CodeCounts.SortSymbols` | work/3rd/zlib/inftrees.c:140-147 | The work array lists the used symbols in order of length and then of symbol. |
| `TableCells.Replicate` | work/3rd/zlib/inftrees.c:230-238 | Stepping down through the sub-table writes exactly the slots whose index has the given low digits and no other. |
| `TableFill.SubTableBits` | work/3rd/zlib/inftrees.c:269-277 | The look-ahead in the counts sizes a sub-table to exactly the longest code that starts with its root bits. |
| `Inftrees.InflateTable` | work/3rd/zlib/inftrees.c:106-303 | -1 exactly where some code is given and two codes would have to share a string, or some input begins with no code, unless the only code is a literal, length or distance code of one bit; 1 exactly when the sub-tables outgrow their space; otherwise the table has the size and root stated, every used symbol is found under its code with its length, and every slot that no code reaches is invalid. |
| `PrefixCodes.SeparableIff` | work/3rd/zlib/inftrees.c:131-136 | There are strings of the given lengths none of which begins another if and only if the lengths are not over-subscribed (the theorem of Kraft and McMillan). |
| `PrefixCodes.RejectedIff` | work/3rd/zlib/inftrees.c:131-138 | What the count of code space turns down is what the codes themselves rule out: two would share a string, or some input of 15 bits begins with none. |
| `TableSpace.RoomBound` | work/3rd/zlib/inftrees.c:266-286 | The sub-tables of a complete code, the number of their index bits at most and one more are no more than the codes behind links and a table of all those index bits. |
| `TableSpace.LenSpace` | work/3rd/zlib/inftrees.h:35-51 | The table of a complete code of at most 286 symbols with a root of 9 bits has at most 852 entries. |
| `TableSpace.DistSpace` | work/3rd/zlib/inftrees.h:35-51 | The same for complete codes of at most 30 symbols with a root of 6 bits and 592 entries. |
| `EnoughSpace.AlwaysRoom` | work/3rd/zlib/inflate.c:1015-1038 | The tables of every literal and distance code that is complete, or a single code of one bit, or of no distance code at all, are made and have room in the 852 and 592 entries. |
| `CodeCounts.RootIs` | work/3rd/zlib/inftrees.c:113-128 | The root is as wide as asked for, less only if no code is longer than it, and more only if none is shorter. |
| `Lookup.RootEntry` | work/3rd/zlib/inflate.c:1054-1058 | The root entry for any bits, known so far or padded, is the symbol whose code they begin with, an invalid code, or the link to a sub-table. |
| `Lookup.SubEntry` | work/3rd/zlib/inflate.c:1059-1067 | Behind a link, the entry of the sub-table is the symbol whose code the bits begin with, with the length of that code, or an invalid code. |
| `InflateState.FixedTables` | work/3rd/zlib/inflate.c:278-325 | The tables built for the fixed lengths decode the fixed codes. |
| `Window.SlidingWindow.UpdateWindow` | work/3rd/zlib/inflate.c:396-444 | The window, read round from wnext, holds the last min(32768, total) bytes of the history, after any call. |
| `Window.SlidingWindow.GetDictionary` | work/3rd/zlib/inflate.c:1303-1308 | The dictionary is these bytes in order. |
| `InflateState.Inflater.NeedBits` | work/3rd/zlib/inflate.c:506-524 | Bytes move from the input to the accumulator until it has the bits wanted or the input is used up; the bits ahead stay the same. |
| `InflateState.Inflater.TakeBits` | work/3rd/zlib/inflate.c:526-538 | The number taken is that of the next bits, which leave both the accumulator and the bits ahead. |
| `InflateBlocks.DoTypedo` | work/3rd/zlib/inflate.c:851-886 | The step of the decoder over the bits ahead for a block header, or a pause for want of input that keeps all bits. |
| `InflateBlocks.DoStored` | work/3rd/zlib/inflate.c:887-900 | The same for the lengths of a stored block, which must be complements of each other. |
| `InflateBlocks.DoCopy` | work/3rd/zlib/inflate.c:903-919 | The same for the bytes of a stored block, as far as input and room go. |
| `InflateBlocks.DoTable` | work/3rd/zlib/inflate.c:920-937 | The same for the three counts of a dynamic block, of which too large ones are errors. |
| `InflateLengths.DoLenlens` | work/3rd/zlib/inflate.c:938-958 | The lengths in hand and those of the next bits, three for each, go to the symbols 16, 17, 18, 0, 8, 7, 9, 6, .., 1, 15, given by a formula, the others have none, and the table is made of them; or the state pauses for input, or the set is turned down. |
| `BlockMachine.OrderIs` | work/3rd/zlib/trees.c:71-72 | The order in which the lengths of the code length code are sent: 16, 17, 18, 0, and then 6 + i / 2 in an even place i and (19 - i) / 2 in an odd one. |
| `InflateLengths.DoCodelens` | work/3rd/zlib/inflate.c:959-1041 | The same for the code lengths with their repeats, and both tables. |
| `InflateData.DoLenSlow` | work/3rd/zlib/inflate.c:1044-1092 | The same for a literal, the end of the block, or a length, decoded by root and sub-table, with a pause whenever the bits held do not decide. |
| `InflateData.DoDist` | work/3rd/zlib/inflate.c:1103-1129 | The same for a distance. |
| `InflateCopy.DoMatch` | work/3rd/zlib/inflate.c:1146-1190 | The copy, in pieces from the round window or from the output that it overlaps, is the byte-by-byte copy from the history; a distance beyond the history is an error. |
| `BlockMachine.RunMore` | work/3rd/zlib/inflate.c:622-1275 | A run of the decoder goes the same way when more input is at hand. |
| `BlockMachine.RunSplit` | work/3rd/zlib/inflate.c:622-1275 | Of two runs from the same state the shorter is the beginning of the longer: the decoder is deterministic. |
| `Inflate.Inflate` | work/3rd/zlib/inflate.c:622-1275 | A call, with any input and any room, runs the decoder over the bits it held and the new input, appends what that run puts out, and stops only at the end, at an error, when the input is used up and does not decide the next step, or when the room is full; the return code tells which. |
| `InflateFast.FastStep` | work/3rd/zlib/inffast.c:103-289 | One iteration is the run of the slow states over the same bits; it takes at most 6 bytes and writes at most 258. |
| `InflateFast.InflateFast` | work/3rd/zlib/inffast.c:50-306 | The fast path reaches, over the same bits, a state that the slow states reach, with the same output, and returns with fewer than 8 bits held. |
| `Chunking.Session` | work/3rd/zlib/inflate.c:622-1275 | Any number of calls, with any split of the input and any rooms, are together one run over all the input and put out what it puts out; if the last call leaves room, that run can go no further. |
| `Chunking.SameOutput` | work/3rd/zlib/inflate.c:622-1275 | Two ways to split the same bytes put out the same once both have come to their end, in the same state and with the same bits left; before that the one is a beginning of the other. |
| `Chunking.TwoSessions` | work/3rd/zlib/inflate.c:622-1275 | Two decompressors in one state get the same bytes in different pieces and rooms: if the last call of each leaves room, both put out the same and end in the same state with the same bits left over; if one does, the output of the other is a beginning of its own. |
| `BlockHeader.ReadHeader` | work/3rd/zlib/inflate.c:920-1041 | The header of a dynamic block, as written by send_all_trees, is read back as both sets of lengths with exactly its own bits; the decoder goes on with them whenever each is complete or a single code of one bit, or there is no distance code. |
| `BlockData.ReadBlockData` | work/3rd/zlib/inflate.c:1044-1196 | The data of a block in any usable code are read back as the bytes that the tokens stand for, up to exactly the end of the block. |
| `Blocks.BuiltBuildable` | work/3rd/zlib/inflate.c:1006-1040 | For all trees that build_tree makes, and for a single code of one bit and no distance code, the decoder can make its tables. |
| `Blocks.BlockRoundTrip` | work/3rd/zlib/trees.c:911-1007 | Every block of each kind, at every bit position, is read back as what it stands for with exactly its own bits; if its lengths make no tables, the decoder stops with an error behind the header. |
| `Refusals.RefusedIff` | work/3rd/zlib/inflate.c:855-1160 | A step of the decoder turns the stream down if and only if it has one of these faults: the block type 11; a stored length and its complement that agree in some bit; more than 286 literal or 30 distance codes; lengths that make no code, or none for the end of the block; a repeat of nothing, or of too much; a code for nothing, or none; a distance beyond the output. |
| `Streams.StreamRoundTrip` | work/3rd/zlib/trees.c:911-1007 | Every stream of such blocks is decoded completely to what all of them stand for, with no bit left. |
| `RollingHash.LastThree` | work/3rd/zlib/deflate.c:157-163 | The hash after three updates does not depend on what came before. |
| `RollingHash.HashIs` | work/3rd/zlib/deflate.c:157-163 | The hash of three bytes is the low bits of the first, shifted twice, the second, shifted once, and the third, added without carry. |
| `RollingHash.ThirdByte` | work/3rd/zlib/deflate.c:1281-1290 | Strings with the same hash that agree in two bytes agree in the third, so that it need not be compared. |
| `HashChains.InsertChain` | work/3rd/zlib/deflate.c:182-185 | Inserting keeps the invariant of the chains: heads and links within reach lead to inserted strings of the same hash, and to the newest of them, so that none is passed over. |
| `HashChains.InsertUnbroken` | work/3rd/zlib/deflate.c:182-185 | The part of this that says that nothing is passed over. |
| `HashChains.SlideChains` | work/3rd/zlib/deflate.c:201-225 | Sliding keeps it. |
| `HashChains.SlideUnbroken` | work/3rd/zlib/deflate.c:201-225 | The same for the window that slides. |
| `HashChains.FollowLink` | work/3rd/zlib/deflate.c:1368-1370 | A link followed from a recent position leads to an earlier inserted string of the same hash, or nowhere, and no such string lies in between. |
| `Finder.MatchFinder.InsertString` | work/3rd/zlib/deflate.c:163-190 | The string is inserted, the rolling hash stays that of the position, and the head returned is the newest earlier string of the same hash, or 0. |
| `LongestMatch.CompareStrings` | work/3rd/zlib/deflate.c:1316-1352 | The comparison, which looks at the end of the best match first and skips the third byte, finds the exact common length when it is longer than the best one. |
| `LongestMatch.SearchBest` | work/3rd/zlib/deflate.c:1236-1377 | No candidate of the chain within the limits matches for longer than the result, unless a nice match ended the search. |
| `LongestMatch.LongestMatch` | work/3rd/zlib/deflate.c:1236-1377 | The length and start are those of the search, cut to the lookahead; a longer match than before is a real one in the input, at a distance of at most MAX_DIST; and none of the first max_chain strings of the chain less than wsize - 261 bytes back, or of a quarter as many if prev_length is good_match or more, matches for longer, unless the length is nice_match or the lookahead. |
| `ChainSearch.FindLongest` | work/3rd/zlib/deflate.c:1236-1377 | What is found is what `MatchSearch.LongestAt` says of the input alone, without the window or the hash table: the longest match, the newest of equals, with the strings that have the same hash, tried from the newest on. |
| `MatchSearch.LongestLater` | work/3rd/zlib/deflate.c:1830-1840 | What is found does not depend on input that has not come yet. |
| `MatchSearch.Exhaustive` | work/3rd/zlib/deflate.c:1236-1377 | With a chain longer than the window and nothing left out, no string within reach matches for longer at all, of whatever hash. |
| `MatchSearch.PickBest` | work/3rd/zlib/deflate.c:1353-1367 | What is picked is one of the strings tried with its exact length, and none of those tried is longer, unless it is nice. |
| `ChainSearch.NoneFound` | work/3rd/zlib/deflate.c:1853-1860 | Where no search is made, none would find anything. |
| `ChainSearch.SearchPicks` | work/3rd/zlib/deflate.c:1311-1371 | Walking the links tries just those strings of the input, in the same order and number, wherever the window is. |
| `FillWindow.Slide` | work/3rd/zlib/deflate.c:1508-1517 | The window moves down, and position, block start and chains still mean the same places of the input; match_start is reduced modulo 2^32. |
| `FillWindow.FillWindow` | work/3rd/zlib/deflate.c:1482-1599 | The data of the window are the end of the input read so far, whether it slides or not; there is enough lookahead afterwards, or no input left; position, block start and the distance of the last match are kept. |
| `Matches.CopiesInput` | work/3rd/zlib/deflate.c:1236-1377 | Copying a real match continues the input. |
| `Deflate.Compressor.FlushBlock` | work/3rd/zlib/deflate.c:1605-1620 | The blocks written stand for the input before the position and the tokens start afresh; after the last block the stream is complete: its blocks expand to all of the input, with every match length in 3..258 and every distance in 1..MAX_DIST. Each block is the one that the rule of `FlushBlock.BlockState.TrFlushBlock` takes for its tokens, and each but the last ends where the token buffer is full but for one. |
| `DeflateFast.DeflateFast` | work/3rd/zlib/deflate.c:1824-1919 | Whenever it stops, blocks and tokens expand to exactly the input consumed; with Z_FINISH and room the stream is complete. The tokens are greedy: the longest match at each position, as the search finds it among the strings that were inserted, which are all but those inside matches longer than max_insert, or else a literal. |
| `DeflateSlow.AdoptLast` | work/3rd/zlib/deflate.c:1988-2013 | The match found one position earlier is real though its start may have wrapped round when the window slid in between. |
| `DeflateSlow.DeflateSlow` | work/3rd/zlib/deflate.c:1926-2050 | Blocks and tokens expand to the input consumed but for one byte held back while a decision is pending. The tokens are those of lazy evaluation: a match is taken where it was found and if no better one was found one position further on, a literal if none was found or a better one there; better than n bytes is longer, not sought from max_lazy bytes on, and for Z_FILTERED more than 5 bytes, and for 3 bytes no more than 4096 back. |
| `Parsing.LazyExpands` | work/3rd/zlib/deflate.c:1926-2050 | Any tokens of lazy evaluation stand for the input. |
| `DeflateRle.RunLength` | work/3rd/zlib/deflate.c:2079-2098 | The length is that of the run of the previous byte, as long as it goes within the limits, or 0 for less than 3. |
| `DeflateRle.DeflateRle` | work/3rd/zlib/deflate.c:2057-2124 | The tokens are determined by the input: the run of the byte before, if there are three bytes of it, up to 258, and a literal otherwise; the blocks stand for the input. |
| `DeflateRle.DeflateHuff` | work/3rd/zlib/deflate.c:2130-2163 | The tokens are the input, byte by byte; the blocks stand for it. |
| `RoundTrip.Compress` | work/3rd/zlib/deflate.c:1824-2163 | For each of the four strategies, however the input arrives: the calls end with a complete stream for all of it, whose tokens, in all blocks together, whether sent as tokens or stored, are those of the strategy for the whole input, and whose blocks are all full but the last and chosen by the rule. |
| `RoundTrip.Restore` | work/3rd/zlib/inflate.c:622-1275 | Given a complete stream in any pieces, the decoder never fails, puts out a beginning of the input at any time, and, if the last call has more room than the input is long, all of it, with the stream used up. |
| `RoundTrip.ThereAndBack` | work/3rd/zlib/deflate.c:1824-2163 | Compressing any input in any way gives a complete stream for it, with every distance within the window, and restoring it from any cut of these bytes gives the input back. |
| `SkipKeys.LessTotal` | work/3rd/lua-zset/skiplist.c:81-89 | The order of (score, member) is total. |
| `SkipList.FindUpdate` | work/3rd/lua-zset/skiplist.c:95-108 | The descent finds in every level the last node before the key, and its exact rank. |
| `SkipInsert.SlInsert` | work/3rd/lua-zset/skiplist.c:91-144 | For every level of the new node the list stays valid (each level a sublist of the one below, spans the exact differences of positions, backward links and tail the mirror of the lowest level, length the number of nodes) and the sorted sequence gets the key in its place; the new node takes part in as many levels as asked for, and the others in as many as before. |
| `SkipDelete.SlDeleteNode` | work/3rd/lua-zset/skiplist.c:146-165 | The node goes with its levels, the list stays valid, and the same update nodes serve for the node that moves up. |
| `SkipDelete.SlDelete` | work/3rd/lua-zset/skiplist.c:167-193 | The key goes if and only if it was there, and nothing else changes. |
| `SkipDelete.SlDeleteByRank` | work/3rd/lua-zset/skiplist.c:195-221 | With the update nodes found once, exactly the elements of the rank range go; their number is returned and their members are handed out in order. |
| `SkipQueries.SlGetRank` | work/3rd/lua-zset/skiplist.c:227-249 | A member with its own score gets its 1-based rank, an absent member 0; with a wrong score never the rank of another member. |
| `SkipQueries.SlGetNodeByRank` | work/3rd/lua-zset/skiplist.c:251-275 | The node of the rank, or none if there is no such rank: the inverse of the former. |
| `SkipQueries.SlIsInRange` | work/3rd/lua-zset/skiplist.c:277-294 | True if and only if the list has an element not below and one not above the range. |
| `SkipQueries.SlFirstInRange` | work/3rd/lua-zset/skiplist.c:296-315 | The first element not below the range, which may lie above it. |
| `SkipQueries.SlLastInRange` | work/3rd/lua-zset/skiplist.c:317-334 | The last element not above the range, which may lie below it. |
| `SkipQueries.GetRankRange` | work/3rd/lua-zset/lua-skiplist.c:95-119 | The members whose ranks lie in the range, in the order asked for, all of them if and only if the first rank is one of the list, or none of the range is, and the length of the range, as an int of 32 bits keeps it, is not less than their number; otherwise only the first ones, or none. |
| `SkipQueries.ShortRange` | work/3rd/lua-zset/lua-skiplist.c:97-106 | A length below 2^31 is never less than the number of elements in the range. |
| `SkipQueries.LongRange` | work/3rd/lua-zset/lua-skiplist.c:97-106 | A list of one element and the ranks 1 to 2^31: the one element asked for is not handed out. |
| `SkipQueries.StartOutside` | work/3rd/lua-zset/lua-skiplist.c:108-118 | Ranks 10 to 1, or 0 to 3, of five elements: five, or three, elements are in the range, and the walk does not start. |
| `SkipQueries.GetScoreRange` | work/3rd/lua-zset/lua-skiplist.c:122-153 | Exactly the members whose scores lie between the two numbers, rising or falling. |
| `Bigints.Multadd` | work/3rd/lua-cjson/dtoa.c:612-666 | The value becomes m times itself plus a, in place or in a larger copy; each product and its carry fit the 64 bits they are kept in. |
| `BigProduct.Mult` | work/3rd/lua-cjson/dtoa.c:804-913 | The value of the new number is the product, for operands of any length, also for a number with itself. |
| `PowersOfFive.PowerList.Pow5mult` | work/3rd/lua-cjson/dtoa.c:915-970 | The value is multiplied by 5^k; the list of the powers 5^(4 * 2^i) grows as needed and stays right. |
| `BigShift.Lshift` | work/3rd/lua-cjson/dtoa.c:972-1030 | The value of the new number is 2^k times the old one. |
| `Bigints.Cmp` | work/3rd/lua-cjson/dtoa.c:1032-1065 | The sign of the result is that of the difference of the values, if and only if the operands are not two zeros of different lengths. |
| `BigShift.Diff` | work/3rd/lua-cjson/dtoa.c:1067-1160 | The value of the new number is the distance of the two and its sign tells which is smaller. |
| `BigDivision.Hi0bits` | work/3rd/lua-cjson/dtoa.c:706-738 | The number of leading zeros of a word, 32 for zero. |
| `BigDivision.Dshift` | work/3rd/lua-cjson/dtoa.c:2106-2117 | The shift after which the leading digit lies at bit 27 of a word. |
| `BigDivision.Arrange` | work/3rd/lua-cjson/dtoa.c:4145-4159 | Both numbers are shifted by the same amount more, and the divisor's top word is then in [2^27, 2^28). |
| `BigDivision.Estimate` | work/3rd/lua-cjson/dtoa.c:2136-2149 | The quotient of the top words is the true quotient or one less, for every pair of numbers with such a divisor. |
| `BigDivision.Quorem` | work/3rd/lua-cjson/dtoa.c:2119-2241 | The result is floor(b / S) and b becomes b mod S in place, after at most one correction. |
| `DecimalDigits.Generate` | work/3rd/lua-cjson/dtoa.c:4284-4297 | The digits so far and the rest are always the exact decimal quotient; the loop ends early exactly when nothing is left. |
| `Rounding.RoundOff` | work/3rd/lua-cjson/dtoa.c:4314-4322 | The number written grows by one in its last place, with nines dropped, up to a 1 in front of the first place. |
| `Rounding.TrimZeros` | work/3rd/lua-cjson/dtoa.c:4323-4329 | The number written is the same without the zeros at its end. |
| `Rounding.RoundedUnique` | work/3rd/lua-cjson/dtoa.c:4306-4313 | There is only one nearest integer with ties to even, so that the digits are determined. |
| `DecimalDigits.Digits` | work/3rd/lua-cjson/dtoa.c:4284-4329 | The digits are b / S rounded half-even to ilim significant places, without zeros at the end. |
| `Dtoa.Digitize` | work/3rd/lua-cjson/dtoa.c:4145-4329 | From any two numbers and an estimate k of the exponent that is right or one too large: the digits and the position of the point stand for the multiple of the unit nearest to the value num / den * 10^k, of two such the even one, without zeros at the end. In mode 3 the unit is 10^-ndigits, in mode 2 that of the last of ndigits digits, or of the first if there are fewer than 2; also when no place is left. |
| `Dtoa.AnswerNearest` | work/3rd/lua-cjson/dtoa.c:4180-4329 | The integers that the digits are made from mean this for real numbers. |
| `CrcRegister.FeedWhole` | work/3rd/zlib/crc32.c:78-83 | Feeding bits one by one is the same as adding all of them to the register and then shifting. |
| `Crc.MakeCrcTable` | work/3rd/zlib/crc32.c:85-133 | Each of the four tables holds the register after its byte and 0 to 3 bytes of zeros. |
| `Crc.Crc32Little` | work/3rd/zlib/crc32.c:260-297 | The word-at-a-time loop gives the bit-at-a-time CRC of the bytes, at every address and for every length. |
| `Crc.Crc32Z` | work/3rd/zlib/crc32.c:202-237 | So does the loop over bytes; without a buffer the result is 0. |
| `CrcPolynomial.Remainder` | work/3rd/zlib/crc32.c:60-80 | The register, read with its digits reversed, is the remainder of the message times x^32, with the first register added on top, divided by the CRC-32 polynomial. |
| `CrcPolynomial.Terms` | work/3rd/zlib/crc32.c:93-116 | The polynomial has the terms listed in the source and x^32, and the word of the program the same ones the other way round. |
| `CrcPolynomial.RemainderUnique` | work/3rd/zlib/crc32.c:60-80 | There is no other remainder below x^32. |
| `CrcCombine.MatrixTimes` | work/3rd/zlib/crc32.c:344-358 | The rows picked by the vector, added up. |
| `CrcCombine.MatrixSquare` | work/3rd/zlib/crc32.c:361-369 | The square of the operator for k zero bits is the one for 2 k. |
| `CrcCombine.Crc32Combine` | work/3rd/zlib/crc32.c:372-425 | For every length the result is the CRC of the concatenation of the two parts. |
| `Adler.NoOverflow` | work/3rd/zlib/adler32.c:10-12 | After NMAX bytes the second sum is still below 2^32. |
| `Adler.BasePrime` | work/3rd/zlib/adler32.c:10 | BASE is a prime number. |
| `Adler.BaseLargest` | work/3rd/zlib/adler32.c:10 | No prime number below 2^16 is larger than BASE. |
| `Adler.LargestBatch` | work/3rd/zlib/adler32.c:10-12 | NMAX is the largest n for which 255 n (n + 1) / 2 + (n + 1) (BASE - 1) is below 2^32. |
| `Adler.Adler32Z` | work/3rd/zlib/adler32.c:63-133 | The checksum with the modulo put off is the bytewise one, and no 32-bit sum overflows; for a single byte if and only if the second sum leaves room for one subtraction. |
| `Adler.NotContinued` | work/3rd/zlib/adler32.c:75-83 | A number that is no checksum, for which it does not. |
| `Adler.ChecksumsReduced` | work/3rd/zlib/adler32.c:63-133 | Every checksum leaves that room. |
| `AdlerCombine.Adler32Combine` | work/3rd/zlib/adler32.c:145-169 | For every length the result is the checksum of the concatenation of the two parts; no 32-bit sum overflows. |
| `Logger.Front.Append` | work/common/luaclib_src/lua-log.c:216-276 | The message comes behind all others in the queue and the current buffer, whether the buffer is changed or not; every buffer of the queue is full. |
| `Logger.Back.Cut` | work/common/luaclib_src/lua-log.c:342-371 | A batch of more than 25 buffers is cut to its first two. |
| `Logger.Back.Write` | work/common/luaclib_src/lua-log.c:378-403 | The messages of the batch are written in order. |
| `Logger.Back.Recycle` | work/common/luaclib_src/lua-log.c:416-447 | Two buffers of the batch become the free ones; none of the asserts fails. |
| `Logger.Log.Swap` | work/common/luaclib_src/lua-log.c:309-338 | The queue and the current buffer become the batch; nothing is lost or moved. |
| `Logger.Log.Run` | work/common/luaclib_src/lua-log.c:216-453 | For every interleaving of messages and steps of the worker: what is written, in the batch, and in the queue with the current buffer is what the steps of a machine over messages alone say, which swaps, cuts a batch of more than 25 full buffers to two, writes, and waits again. |
| `Logger.NothingLost` | work/common/luaclib_src/lua-log.c:216-453 | What is written, in the batch and in the queue is, in this order, everything given, if no batch taken has more messages than 25 buffers hold; otherwise some are missing. |
| `Logger.StillInOrder` | work/common/luaclib_src/lua-log.c:342-371 | Also with batches cut, what is left is some of the messages given, in their order, none twice. |
| `Logger.AllWritten` | work/common/luaclib_src/lua-log.c:309-453 | From any state six steps of the worker write all messages there are, if neither batch nor queue is too long. |
| `Logger.BurstLost` | work/common/luaclib_src/lua-log.c:342-371 | Messages that come before the worker wakes up: if there are more than 12775, all but the first 1022 are lost, and none otherwise. |

## Left out

- Dtoa.Digitize: starts from the integers b and S; the decomposition of a double, the floating-point estimate of the exponent, the quick path and the shortest digits of modes 0 and 1 need a model of IEEE arithmetic.
- Logger.Log.Run: says nothing about delivery after log_exit, whose worker does not drain the queue; files, rolling, time and failed allocation are left out, and a buffer holds a sequence of messages instead of an array with a size.
- Logger.Front.Append: the text of a message is a value; the copy into an array of 16 K and the directory of a level are left out.
- Chunking.Session: the window has 32 K. With a smaller one a distance may reach further back within one call than across two.
- Inflate.Inflate: raw streams only; zlib and gzip headers and trailers, the check value, Z_BLOCK, Z_TREES, inflateSync, inflatePrime, inflateMark and the back and sane fields are left out. TYPE and TYPEDO, COPY_ and COPY, LEN_ and LEN, CHECK and DONE are one state each, and so they are for raw streams without these flush modes.
- InflateFast.InflateFast: the copies that are unrolled three bytes at a time are loops over bytes.
- InflateState.FixedTables: the fixed tables are built by inflate_table, as under BUILDFIXED, and not listed.
- FillWindow.FillWindow: the zeroing of memory beyond the data (high_water), the field insert, preset dictionaries and the copy of the input to the check value are left out.
- LongestMatch.LongestMatch: the unrolled comparison is a loop over bytes; UNALIGNED_OK and FASTEST are left out.
- Deflate.Compressor.FlushBlock: whether the pending output has room is a free choice at every flush; the copy to the caller's buffer is left out. deflate_stored, deflateParams, deflateTune, deflatePrime and flush modes other than Z_NO_FLUSH and Z_FINISH are left out. d_buf and l_buf are arrays of their own and not part of the pending buffer.
- FlushBlock.BlockState.TrFlushBlock: detect_data_type is left out; frequencies are unbounded, with the number of tokens below 2^15.
- SkipInsert.SlInsert: the caller keeps keys unique, as the comment at work/3rd/lua-zset/skiplist.c:109-112 says; scores are real numbers without NaN; the random height is a parameter; spans and the difference of two lengths in compareslObj are not truncated to 32 bits.
- SkipDelete.SlDeleteByRank: the callback only receives the members, it does not touch the list.
- PowersOfFive.PowerList.Pow5mult: the list of powers is a sequence of numbers instead of nodes linked by next; the free list of Balloc and the locks are left out, so that a number not used any more is not reused.
- Crc.Crc32Little: crc32_big and the byte-swapped tables are left out, and the polynomial is the constant its loop computes; unrolled groups of eight steps are loops.
- Crc.Crc32Z: the register is below 2^32, as every CRC is.
- AdlerCombine.Adler32Combine: both arguments have reduced sums, as all checksums have; the NO_DIVIDE variants are left out.
- infback.c, the gz files, compress.c, uncompr.c, lua-gzip.c, lua_cjson.c, strbuf.c, LuaXML_lib.c and the remaining Lua bindings: wrappers, or second copies of the same logic.
