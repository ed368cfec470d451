# Verified models of the zlib codec, its checksums and the zucchini address translator

A Dafny 4.11 project about the code under `external/zlib` and `external/zucchini`. The models follow
the code step by step: arrays that are filled in place, a state machine that stops and goes on, classes
whose methods update their fields. Each method is proved against a specification, and the specifications
are connected by theorems that span the whole library.

The main results:

- **inflate(deflate(x)) == x** (`RoundTrip.ThereAndBack`). For every input, every window size, every size
  of the hash table, every matching strategy (fast, lazy, run-length, Huffman-only, fixed trees or not) and
  every schedule of calls, flush values and buffer sizes on both sides, and every window of `inflate` that is
  not shorter than that of `deflate`: if `deflate` reports the end of the stream, every schedule of `inflate` calls over its bytes yields
  a beginning of the input and no error, and a last call with all input and enough space yields all of it.
  `RoundTrip.OneShot` needs no such condition: one call of `deflate`, with the value of
  `deflateBound` as space, and one call of `inflate` give back every input. The tight value for the default
  settings is enough for all input and every way of matching (`RoundTrip.TightPass`), but not with fixed trees
  (`RoundTrip.FixedExceeds`). After a full flush, what follows decodes by itself (`RoundTrip.RestartHere`). Level 0 has its own path through the code and its own theorems
  (`RoundTrip.StoredThereAndBack`, `RoundTrip.StoredOneShot`).
- **Chunk independence** (`InflateSpec.ChunkIndependence`, `RoundTrip.SettledAgree`). How input and output
  space are split over calls of `inflate` does not matter, and the unchecked fast loop is a run of the
  checked states (`InflateFast.InflateFast`). With a window of fewer than 15 bits this holds for data
  exactly if no match reaches back further than the window is long, unless it reaches before all output
  (`InflateStream.Decompress`, `SmallWindow.Depends`, `SmallWindow.TooShort`).
- **Two-level decoding tables** (`InflateTable.MakeTable`) agree with the canonical code of section 3.2.2
  of RFC 1951, and the constants 852 and 592 of `inftrees.h` are proved to be enough for every code
  (`Enough.NeverExceeds`), so that the round trip needs no assumption about table space.
- **Huffman optimality** (`BuildTree.Build`). The in-place heap, the merging loop and the repair of
  over-long codes give a complete code, and it is the cheapest of all codes exactly when some cheapest code
  keeps to the limit: the tie-breaker by depth finds a cheapest code whose longest word is as short as can
  be (`CheapestCode.FitsTree`). Fibonacci numbers give conditions that can be read off the frequencies
  (`HuffmanTree.HeightWeight`). When it is not the cheapest, it is within 62 bits for each symbol of it
  (`RepairCost.RepairPrice`), which is what the tight value of `deflateBound` rests on. For a block this means that no pair of codes makes its symbols take fewer
  bits (`BestBlock.NoSmallerBlock`). `opt_len` and `static_len` are exact to the bit (`TreeCoder.BuildAll`).
- **The pending buffer** (`BitWriter`). Bytes are put at index `pending` and taken from `pending_out` on;
  they come out in order because bytes are only ever put when `pending_out` is at the front, over all
  schedules of calls. Whatever encoding a block gets, it fits the buffer, and static blocks never overwrite
  a symbol of the overlaid symbol buffer before it is read (`Compress.CompressPaced`).
- **LZ77 losslessness** over whole runs with sliding windows, hash chains, a rolling hash and lazy evaluation
  (`LazyMatch.Finder.SlowStep`, `DeflateBlocks.Compress`, `RollingHash.HashGood`). The hash chains are complete:
  every search visits exactly the strings that can be matched (`Searcher.SearchExact`,
  `Matcher.Matcher.SearchesAll`), and a slide changes a search just when the one string found has come to the
  beginning of the window (`Searcher.SlideSearch`, `Searcher.NearestSlides`).
- **Checksums**: Adler-32 in blocks, in vector lanes and combined; CRC-32 by table, in braids and combined,
  for every length, down to the constants of `x2n_table`.
- **Address translation** (`AddressTranslator.Translator.Initialize` and the lemmas beside it): merging
  preserves meaning, translation is a bijection, and success is characterised for every way to sort equal
  offsets (`AddressTranslator.Extremes`).

## Layout

| files | contents |
|---|---|
| `Bits`, `Canonical` | shifts, bit reversal, bit strings; canonical codes as intervals |
| `InflateTable`, `Enough` | `inflate_table` and its space |
| `Lz77`, `InflateSpec` | symbols and their expansion; decoding as a step function, runs, calls, sessions |
| `Distances`, `Window`, `Inflate`, `InflateFast`, `InflateStream`, `SyncSearch`, `SmallWindow` | how far matches reach back, the circular window, the modes of `inflate`, the fast loop, the stream object, the search for a flush mark, windows that are too short |
| `BitWriter`, `StaticTables`, `TreeCodes`, `Block`, `Compress`, `TreeTransport` | sending bits, codes, symbols and code lengths |
| `SetSum`, `HuffmanOpt`, `HuffmanTree`, `NodeHeap`, `HuffmanBuild`, `CheapestCode`, `BitLengths`, `LengthRepair`, `RepairCost`, `BuildTree` | `build_tree` and `gen_bitlen` |
| `BlockCodec`, `BlockStats`, `DynamicTrees`, `StaticTrees`, `TreeCoder`, `BestBlock` | blocks, their sizes, `_tr_flush_block`, its best codes |
| `Searcher`, `RollingHash`, `Matcher`, `Lossless`, `LazyMatch`, `BlockBound`, `GreedyBound`, `StaticOverrun`, `DeflateBlocks`, `DeflateStream`, `StoredStream`, `RoundTrip` | `deflate`, its output size, level 0, and the round trip |
| `Adler`, `AdlerSimd`, `Gf2`, `Gf2Powers`, `Crc`, `CrcCombine`, `CrcBraid` | checksums |
| `AddressUnits`, `AddressTranslator`, `Abs32` | zucchini |

## How the code is read

- Integers are unbounded in Dafny; where the width matters it is written out (`match_start` wraps at 2^32,
  the frequencies stay below 65536, the lanes of `adler32_simd.c` are reduced modulo 2^32, CRC registers are
  bit vectors).
- `|=` of bits that do not overlap is addition; `w_mask` is the slot function of `Searcher`.
- The hash is the rolling one of `UPDATE_HASH`, for every `hash_bits` that `memLevel` can give; what
  `longest_match` relies on, and that `ins_h` always belongs to the next string, is proved.
- Sorting routines are parameters of `Initialize`: any function that returns a sorted permutation, because
  `std::sort` leaves the order of equal elements open.
- The comment in `address_translator.h` that all offset ranges are non-empty is not what the code
  ensures: a section whose data has size zero survives, and its place among equal offsets can decide whether
  `Initialize` succeeds (`AddressTranslator.OrderMatters`). It succeeds for every order exactly if the
  sections are sound and no RVAs that dangle without data before them sit at an offset in use, and for some
  order exactly if none of them sit in the middle of data (`AddressTranslator.Extremes`).
- `pending_buf` is a sequence of fixed length with the indices `pending` and `pending_out`. The symbol
  buffer is a value of its own; that the two share memory is expressed by `limit`, an index from which on
  the bit writer must not write.
- In `deflate_slow` a full block after a literal is flushed before `strstart` moves on (`FLUSH_BLOCK_ONLY`); the
  model moves first and flushes the symbols up to the byte that still waits, which is the same block.
- `zlib.h` says that a stream made with a larger window than `inflate` has is refused with `Z_DATA_ERROR`. For raw
  data the code refuses a distance only when it reaches before the window and the output of the current call, so
  that it depends on the calls (`SmallWindow.WholeCall`, `SmallWindow.SplitCall`).
- The meaning of an RVA in `AddressUnits` is finer than its translation: dangling RVAs of the same shift with
  different ends of the data before them count as different, because `MergeUnits` refuses them, although they get the
  same fake offset. `AddressUnits.MeetDiffers` says when a refusal is about offsets, too: the units `(0, 5, 0, 10)` and
  `(9, 0, 9, 3)`, as offset, size, RVA and size, share RVA 9 only, which dangles in both.
- `deflateBound` gives the tight value for 15 window bits and 15 hash bits, which without the CRC hash is memory
  level 8. With it `hash_bits` is 15 for the lower memory levels as well, whose blocks are shorter; that is not part of the model.
- `slide_hash` turns the position at the beginning of the upper half into no position, and `fill_window` slides when
  `strstart` is exactly MAX_DIST beyond it, a distance at which the callers of `longest_match` would still take it
  (`Searcher.SlideLoses`). Only a match is missed, so that nothing else depends on it.

## Model

| member | source | states |
|---|---|---|
| `Canonical.CoversUnique` | external/zlib/inftrees.c:107-138 | no point of the code space belongs to two codes that are not over-subscribed |
| `Canonical.CoversExists` | external/zlib/inftrees.c:130-138 | in a complete code every point belongs to some symbol |
| `Canonical.PrefixFree` | external/zlib/trees.c:572-605 | no code word sent is the beginning of another one (section 3.2.2 of RFC 1951) |
| `Canonical.WordCovers` | external/zlib/trees.c:596-605 | bits start with the bit-reversed code of a symbol if and only if they pick a point of its interval |
| `InflateTable.CountLengths` | external/zlib/inftrees.c:107-110 | count[l] is the number of symbols of length l |
| `InflateTable.CheckLengths` | external/zlib/inftrees.c:130-138 | left is negative exactly for an over-subscribed set of lengths, else exactly the free part of the code space |
| `InflateTable.SortSymbols` | external/zlib/inftrees.c:140-147 | work holds every used symbol once, ordered by length and then by symbol |
| `InflateTable.BackIncrement` | external/zlib/inftrees.c:239-248 | the backwards increment turns the reversal of a code into the reversal of the next code |
| `InflateTable.Fill` | external/zlib/inftrees.c:230-237 | replicating an entry fills exactly the slots whose low bits are the code, and no others |
| `InflateTable.SubTableBits` | external/zlib/inftrees.c:266-274 | a sub-table gets the least number of index bits that holds all remaining codes of its root slot |
| `InflateTable.NextTable` | external/zlib/inftrees.c:257-287 | a new sub-table is begun exactly when the next code leaves the root slot, and linked from its root slot; 1 is returned exactly when the space is exceeded |
| `InflateTable.BuildTable` | external/zlib/inftrees.c:197-288 | all codes are entered: any bits find the symbol whose code they start with; for a complete code every slot used is filled |
| `InflateTable.MakeTable` | external/zlib/inftrees.c:32-304 | -1 exactly for lengths that are not acceptable, 1 exactly when the table is too large, else a table in which every bit string finds the entry of the symbol whose canonical code it starts with, through root and sub-table, and drops exactly its length; all slots of a complete code are filled, a lone code leaves the invalid marker |
| `Enough.SubTables` | external/zlib/inftrees.h:38-51 | the slots of the sub-tables still to come are bounded by the codes still to come plus a telescoping power of two |
| `Enough.EnoughLens` | external/zlib/inftrees.h:38-51 | 852 slots are enough for every complete code of at most 286 symbols with 9 root bits |
| `Enough.EnoughDists` | external/zlib/inftrees.h:38-51 | 592 slots are enough for every complete code of at most 30 symbols with 6 root bits |
| `Enough.NeverExceeds` | external/zlib/inftrees.c:276-280 | for lengths that inflate accepts, inflate_table never returns 1 |
| `InflateSpec.StepMonotone` | external/zlib/inflate.c:860-1219 | a decoding step does not depend on the bits behind those it takes |
| `InflateSpec.StepOk` | external/zlib/inflate.c:860-1219 | every step leads to a state that satisfies the state invariant |
| `InflateSpec.StepOutput` | external/zlib/inflate.c:860-1219 | a step appends at most one byte, and only in the states that need output space |
| `InflateSpec.FixedOk` | external/zlib/inflate.c:280-321 | the fixed codes of section 3.2.6 of RFC 1951 are complete |
| `InflateSpec.Confluent` | external/zlib/inflate.c:624-1301 | two runs from one configuration that cannot go on have ended in the same configuration |
| `InflateSpec.ChunkIndependence` | external/zlib/inflate.c:624-1301 | for every two ways to split input and output space over calls, once no step is left, mode, output and unread bits are the same |
| `InflateSpec.MatchSteps` | external/zlib/inflate.c:1169-1213 | n steps of a match append n bytes, each equal to the byte offset back |
| `Window.HoldsAppend` | external/zlib/inflate.c:398-446 | output copied in at wnext, with wrap, gives the window of the longer output |
| `Window.Window.Update` | external/zlib/inflate.c:398-446 | after any output the circular window, of any size, read back from wnext is the last whave bytes of all output so far |
| `Window.Window.RecallsRecent` | external/zlib/inflate.c:398-446 | what is older than the window is long is forgotten, and nothing else |
| `Inflate.NeedBits` | external/zlib/inflate.c:508-523 | bits are pulled from the input without changing the unread bit string |
| `Inflate.DoType` | external/zlib/inflate.c:860-898 | a block header is read as the step of the specification, or the call stops with the same configuration |
| `Inflate.DoStored` | external/zlib/inflate.c:899-913 | length and complement of a stored block are read and compared |
| `Inflate.DoCopy` | external/zlib/inflate.c:917-933 | as many stored bytes are copied as input, space and block allow |
| `Inflate.DoTable` | external/zlib/inflate.c:934-952 | the three counts of a dynamic block, refusing too many codes |
| `Inflate.DoLenLens` | external/zlib/inflate.c:953-974 | the code length code lengths in their order, then its table |
| `Inflate.CodeTable` | external/zlib/inflate.c:959-970 | the unsent lengths count as zero; the table is built or the data refused |
| `Inflate.DoCodeLens` | external/zlib/inflate.c:975-1061 | literal lengths, repeats and the tables of a dynamic block follow the specification |
| `Inflate.ApplyRepeat` | external/zlib/inflate.c:982-1020 | codes 16, 17 and 18 repeat as section 3.2.7 of RFC 1951 says, and too long repeats are refused |
| `Inflate.DynamicTables` | external/zlib/inflate.c:1027-1058 | the data is refused exactly when symbol 256 has no code or a table cannot be built, else both tables decode their codes |
| `Inflate.FixedTables` | external/zlib/inflate.c:280-321 | the tables of the fixed codes decode the fixed codes |
| `Inflate.PullCode` | external/zlib/inflate.c:1073-1090 | a code is looked up in both table levels and recognised exactly when all its bits are there |
| `Inflate.DoLen` | external/zlib/inflate.c:1062-1112 | a literal, a length, the end of the block or an error, as the specification decodes it |
| `Inflate.DoLenExt` | external/zlib/inflate.c:1113-1123 | the extra bits of a length |
| `Inflate.DoDist` | external/zlib/inflate.c:1124-1151 | the distance code, refusing invalid ones |
| `Inflate.DoDistExt` | external/zlib/inflate.c:1152-1168 | the extra bits of a distance |
| `Inflate.MatchBytes` | external/zlib/inflate.c:1170-1211 | a distance is refused exactly when it reaches before the output; else the bytes appended, from the window or the output, split by wrap or by lack of space, are those the distance back |
| `Inflate.DoMatch` | external/zlib/inflate.c:1169-1213 | a match goes on for as many bytes as there is space |
| `Inflate.DoLit` | external/zlib/inflate.c:1214-1219 | a literal waits for space |
| `InflateFast.FastCopy` | external/zlib/inffast.c:173-268 | a distance is refused exactly when it reaches before the window and the output; else the copy, in all its cases, appends the bytes the distance back |
| `InflateFast.FastStep` | external/zlib/inffast.c:107-294 | one pass of the fast loop is a run of the checked states, within the 6 bytes and 258 bytes it needs |
| `InflateFast.GiveBackKeeps` | external/zlib/inffast.c:296-300 | returning whole bytes to the input leaves the unread bits as they were |
| `InflateFast.InflateFast` | external/zlib/inffast.c:54-314 | the fast loop never reads or writes past its buffers and leaves output, bit position and mode as the checked states would |
| `InflateStream.Visit` | external/zlib/inflate.c:657-1271 | one turn of the switch is a run of the specification, or stops where no step is possible |
| `InflateStream.Work` | external/zlib/inflate.c:651-1271 | the loop of inflate ends where no step is possible without more input or space |
| `InflateStream.Inflater.Inflate` | external/zlib/inflate.c:624-1301 | with Z_NO_FLUSH or Z_FINISH and any window: a call is a run of the specification that knows of earlier output only what the window holds, and, if no match reaches back further than the window is long, a run of the specification; the return code, Z_BUF_ERROR included, is exactly the one that belongs to it |
| `InflateStream.Inflater.UpdateWindow` | external/zlib/inflate.c:1279-1290 | the window follows the output unless it can no longer be needed |
| `SyncSearch.NextTracks` | external/zlib/inflate.c:1413-1421 | one byte keeps the count equal to the longest beginning of the mark that the input ends with |
| `SyncSearch.Search` | external/zlib/inflate.c:1403-1424 | returns at the first end of the mark 0, 0, 0xff, 0xff in all input seen, or with a state from which the search can go on |
| `SyncSearch.SearchAll` | external/zlib/inflate.c:1403-1424 | the mark is found, at its first place, exactly if it occurs, however the input is cut into pieces |
| `InflateStream.Decompress` | external/zlib/inflate.c:624-1301 | any schedule of calls is a session of the specification if no match of the data reaches back further than the window is long; the output returned is its output |
| `InflateStream.FullWindow` | external/zlib/zlib.h:884-888 | a window of 15 bits is long enough for all data |
| `Distances.CallUnder` | external/zlib/inflate.c:1169-1213 | a call that has forgotten older output does what it would have done with it, if no match reaches that far |
| `Distances.WithinAlways` | external/zlib/inflate.c:1152-1168 | no distance is greater than 32768 |
| `Distances.CalmTrans` | external/zlib/inflate.c:624-1301 | how far the matches of a run reach back is how far those of its parts do |
| `SmallWindow.WholeCall` | external/zlib/inflate.c:624-1301 | a single call decodes what the format says, however short the window |
| `SmallWindow.SplitCall` | external/zlib/inflate.c:1175-1181 | the same data in two calls ends in Z_DATA_ERROR, whenever it has a match that reaches back further than the window is long and the first call has just the space for what comes before it |
| `SmallWindow.TooShort` | external/zlib/inflate.c:1175-1181 | there is such a match exactly if the window is not long enough |
| `SmallWindow.Depends` | external/zlib/inflate.c:1175-1181 | so for all data, calls can be split freely exactly if there is none: with one, a single call goes on past the place where two calls end in an error |
| `SmallWindow.FarStream` | external/zlib/zlib.h:887-891 | such data: a stored block of more bytes than the window holds, then a match over all of them |
| `BitWriter.JoinBits` | external/zlib/trees.c:186-208 | bits put above those already held are appended to the bit string |
| `BitWriter.BitWriter.SendBits` | external/zlib/trees.c:186-223 | appends exactly the bits of the value, least significant first, across 16-bit spills |
| `BitWriter.BitWriter.PutShort` | external/zlib/trees.c:174-177 | appends sixteen bits |
| `BitWriter.BitWriter.Flush` | external/zlib/trees.c:1152-1164 | moves whole bytes out without changing what has been sent, and keeps fewer than eight bits |
| `BitWriter.BitWriter.Windup` | external/zlib/trees.c:1169-1182 | pads with zeros to a byte boundary and moves everything out |
| `BitWriter.BitWriter.PutByte` | external/zlib/deflate.h:281-281 | a byte goes to index pending of the buffer, which is the end of what waits only because pending_out is at the front; it never goes to memory still needed |
| `BitWriter.BitWriter.Take` | external/zlib/deflate.c:793-813 | bytes leave from pending_out on, oldest first; pending_out returns to the front exactly when nothing waits |
| `StaticTables.StaticInit` | external/zlib/trees.c:232-312 | for every length and distance the code tables give a code, a base and extra bits that belong to the ranges inflate uses |
| `TreeCodes.BiReverse` | external/zlib/trees.c:1137-1147 | the reversal of the low bits |
| `TreeCodes.GenCodes` | external/zlib/trees.c:572-605 | every symbol gets the reversal of its canonical code |
| `Lz77.CopyBackAt` | external/zlib/inflate.c:1202-1212 | every byte a match appends equals the byte dist back |
| `Lz77.CopyBackUnique` | external/zlib/inflate.c:1202-1212 | and no other output of that length has this property |
| `Block.SymbolSteps` | external/zlib/trees.c:1054-1085 | the bits of one symbol take inflate through LEN, LENEXT, DIST, DISTEXT and MATCH to the bytes of the symbol, and through no match that reaches back further |
| `Block.BlockSteps` | external/zlib/trees.c:1043-1088 | for every symbol list and every pair of codes, inflate decodes the block to the bytes its symbols stand for and the end of the block, looking back no further than they do |
| `Compress.PackedSymbol` | external/zlib/trees.c:1015-1038 | three bytes of the symbol buffer stand for the symbol tallied |
| `Compress.SendSymbol` | external/zlib/trees.c:1054-1080 | sends exactly the bits of one symbol |
| `Compress.CompressBlock` | external/zlib/trees.c:1043-1088 | sends exactly the bits of the buffered symbols and the end of block, within the pending buffer |
| `Compress.CompressPaced` | external/zlib/trees.c:1043-1088 | the same when no symbol takes more than 31 bits, with everything from the next unread symbol on out of bounds: no symbol is overwritten before it is read |
| `StaticTrees.StaticSize` | external/zlib/deflate.c:354-391 | no symbol takes more than 31 bits in the fixed codes |
| `StaticTrees.StaticPaced` | external/zlib/deflate.c:354-391 | so every static block meets the pace that keeps unread symbols safe |
| `StaticTrees.LiteralTree` | external/zlib/trees.c:288-299 | the static literal tree has the canonical codes of the fixed code |
| `StaticTrees.DistanceTree` | external/zlib/trees.c:301-305 | the static distance tree has the canonical codes of five bits |
| `StaticTrees.StaticEncodable` | external/zlib/trees.c:288-305 | every symbol can be sent with the static trees, and with the same bits as with the fixed codes of inflate |
| `TreeTransport.RoundTrip` | external/zlib/trees.c:748-793 | expanding the codes sent gives back the lengths, for every list of lengths |
| `TreeTransport.TokensSteps` | external/zlib/inflate.c:975-1021 | inflate expands the codes sent to the lengths they stand for |
| `TreeTransport.SendTree` | external/zlib/trees.c:748-793 | sends exactly the codes of the run-length form |
| `TreeTransport.ScanTree` | external/zlib/trees.c:703-742 | counts exactly the codes that send_tree emits |
| `HuffmanOpt.Exchange` | external/zlib/trees.c:660-686 | any assignment can be changed, at no more cost and at the same cost without reaching further down, so that the two first nodes of the queue are the longest |
| `HuffmanOpt.MergeBound` | external/zlib/trees.c:660-686 | a bound after merging the two first nodes, plus their weight, is a bound before: for the cost and, among the cheapest assignments, for the longest word |
| `HuffmanOpt.CheapestIsMonotone` | external/zlib/trees.c:660-686 | in a cheapest assignment a rarer symbol never has a shorter code |
| `HuffmanTree.TreeMass` | external/zlib/trees.c:486-562 | the leaves of a tree satisfy the Kraft equality |
| `HuffmanTree.TreeCost` | external/zlib/trees.c:486-562 | the cost of the leaf depths is the weight of the inner nodes |
| `HuffmanTree.HeightWeight` | external/zlib/trees.c:672-674 | a tree of height n made by the merging loop weighs at least the Fibonacci number n + 2 |
| `HuffmanTree.TreeLengths` | external/zlib/trees.c:486-562 | the depths of the leaves of any tree satisfy the Kraft inequality and cost what its inner nodes weigh |
| `NodeHeap.DownHeap` | external/zlib/trees.c:451-474 | sifting restores the heap, keeps the nodes and touches nothing else |
| `NodeHeap.FirstIsLeast` | external/zlib/trees.c:422-444 | the first node of the heap is one of least frequency |
| `NodeHeap.LeastOf` | external/zlib/trees.c:438-444 | the first node of the heap comes before all others, by frequency and then by depth |
| `HuffmanBuild.MergeStep` | external/zlib/trees.c:664-686 | one merge keeps the grove, the order of the nodes taken, the heights recorded and both bounds |
| `HuffmanBuild.MergeAll` | external/zlib/trees.c:658-688 | the loop ends with one tree over the symbols used: no code for these frequencies is cheaper, and none that is as cheap has a shorter longest word |
| `HuffmanBuild.LowTop` | external/zlib/trees.c:673-674 | no subtree is higher than 23, so that a depth always fits its byte |
| `CheapestCode.FitsTree` | external/zlib/trees.c:438-444 | the tie-breaker minimises the worst case: no cheapest code keeps to a limit that is less than the height of the tree |
| `CheapestCode.TreeIsLow` | external/zlib/trees.c:505-526 | nothing overflows if a cheapest code keeps to the limit, if the weights stay below a Fibonacci number, or if there are few symbols |
| `CheapestCode.OptimalCheapest` | external/zlib/trees.c:615-697 | optimal over the arrays of the tree is cheapest over the symbols that occur, both ways |
| `BitLengths.FirstPass` | external/zlib/trees.c:503-526 | lengths are the depths in the tree cut at the limit, with exact counts, overflow and bit totals |
| `LengthRepair.Repair` | external/zlib/trees.c:531-542 | ends at exactly no overflow with the same number of leaves and the Kraft equality restored; only the longest codes have changed, and they are nearly all of the greatest length |
| `LengthRepair.Deal` | external/zlib/trees.c:544-561 | lengths are dealt so that a rarer symbol never gets a shorter code, and the bit total is corrected exactly |
| `HuffmanTree.LeafWeight` | external/zlib/trees.c:655-690 | a leaf on level d weighs at most the total over the Fibonacci number d + 1 |
| `RepairCost.Dominated` | external/zlib/trees.c:544-561 | lengths dealt to the rarest first cost no more than any others of which at least as many are long |
| `RepairCost.PushCost` | external/zlib/trees.c:531-542 | to push a leaf down to 15 bits costs less than 31 bits for each unit of code space that it sets free |
| `RepairCost.RepairPrice` | external/zlib/trees.c:523-561 | the repair of over-long codes costs at most 62 bits for each symbol, for frequencies that add up to at most 16384 |
| `BuildTree.GenBitlen` | external/zlib/trees.c:486-562 | lengths within the limit, Kraft equality, monotone in the frequency, cheapest of all codes when the tree is not too high and never more than 62 bits a symbol from it, bit totals exact |
| `BuildTree.Build` | external/zlib/trees.c:615-697 | a complete code for the symbols that occur (two at least, forced ones costing nothing) within the limit, never shorter for rarer symbols, and the cheapest of all codes exactly when some cheapest code keeps to the limit; so always when the frequencies add up to less than the Fibonacci number limit + 3, or at most limit + 1 symbols occur; with a limit of 15 bits and at most 16384 symbols never more than 62 bits for each symbol that occurs above the cheapest; opt_len and static_len grow by exactly the bits |
| `BlockStats.AllEncodable` | external/zlib/trees.c:1015-1038 | the codes built from the tallied frequencies have a code for every symbol tallied |
| `BlockStats.BlockSize` | external/zlib/trees.c:510-525 | the bits of a block are exactly frequency times length plus extra bits |
| `DynamicTrees.BuildBlTree` | external/zlib/trees.c:799-827 | the code for the code lengths, and the exact size of the transmitted trees added to opt_len |
| `DynamicTrees.SendAllTrees` | external/zlib/trees.c:834-858 | sends exactly the header that announces both codes |
| `DynamicTrees.HeaderSize` | external/zlib/trees.c:818-822 | the header takes 14 bits, 3 for each length sent, and the bits of the run-length codes |
| `BlockCodec.HeaderSteps` | external/zlib/inflate.c:934-1061 | inflate reads the header of a dynamic block to exactly the two codes |
| `BlockCodec.FixedDelivers` | external/zlib/trees.c:979-981 | inflate turns a static block into the bytes of its symbols |
| `BlockCodec.DynamicDelivers` | external/zlib/trees.c:986-990 | inflate turns a dynamic block into the bytes of its symbols, for every complete pair of codes |
| `BlockCodec.StoredDelivers` | external/zlib/trees.c:863-882 | inflate turns a stored block into its bytes |
| `TreeCoder.EncodingDelivers` | external/zlib/trees.c:912-1009 | whichever encoding is chosen, inflate gets the bytes of the symbols back |
| `TreeCoder.BuildAll` | external/zlib/trees.c:928-947 | opt_len and static_len are exactly the bits of the dynamic and of the static block after the three header bits |
| `TreeCoder.StoredBlock` | external/zlib/trees.c:863-882 | sends header, padding, lengths and bytes |
| `TreeCoder.FixedBlock` | external/zlib/trees.c:979-981 | sends exactly the bits of a static block |
| `TreeCoder.Coder.Tally` | external/zlib/deflate.h:326-344 | one more symbol is stored and counted; the buffer is full exactly at sym_end |
| `TreeCoder.Coder.TakePending` | external/zlib/deflate.c:793-813 | the bytes taken, followed by what still waits, are what waited before |
| `TreeCoder.AlignBlock` | external/zlib/trees.c:897-906 | an empty static block, then whole bytes |
| `TreeCoder.Coder.EmptyStored` | external/zlib/trees.c:863-882 | an empty stored block that ends on a byte boundary |
| `TreeCoder.Coder.FlushBlock` | external/zlib/trees.c:912-1009 | writes the tallied symbols in the cheapest of the three encodings, the dynamic one with the best codes for the symbols tallied and for the lengths sent, with its exact bits and within the pending buffer, and starts a new block |
| `TreeCoder.StaticTotal` | external/zlib/deflate.c:354-391 | a static block takes at most 31 bits a symbol and 7 more, so that the pending buffer can hold whichever encoding is chosen |
| `TreeCoder.WriteBlock` | external/zlib/trees.c:945-994 | the choice between the encodings, and that none of them runs over the end of the pending buffer |
| `BestBlock.NoSmallerBlock` | external/zlib/trees.c:912-1009 | whenever cheapest codes keep to 15 bits, no pair of codes at all makes the symbols of the block take fewer bits than those built |
| `BestBlock.ShortBlockFits` | external/zlib/trees.c:912-1009 | they do in every block of fewer than 2583 symbols |
| `GreedyBound.HeaderLimit` | external/zlib/trees.c:833-852 | the header of a dynamic block takes at most 2283 bits |
| `GreedyBound.DynamicBody` | external/zlib/trees.c:912-1009 | whatever the symbols, up to 16383 of them, a dynamic block takes at most five and a half bits for each byte, three and a half for each symbol and a constant |
| `Searcher.ChainsInsert` | external/zlib/contrib/optimizations/insert_string.h:111-123 | inserting a string keeps every chain complete: each link is the last string before with the same hash, if the window still has it |
| `Searcher.ChainsSlide` | external/zlib/deflate.c:193-222 | sliding head and prev keeps the chains complete |
| `Searcher.VisitsSound` | external/zlib/deflate.c:1300-1459 | every position visited within MAX_DIST is a string inserted with the hash searched for, in falling order: no slot on the way was reused by a newer string |
| `Searcher.VisitsExact` | external/zlib/deflate.c:1300-1459 | and no such string is left out: the positions visited are exactly the nearest ones, as many as the chain length allows |
| `Searcher.SearchExact` | external/zlib/deflate.c:2063-2072 | a search that starts from the head of a chain visits exactly the strings that can be matched: the nearest ones less than MAX_DIST back, or one exactly MAX_DIST back if there is none |
| `Searcher.SlideSearch` | external/zlib/deflate.c:193-222 | a slide leaves a search as it was if and only if not the head of the chain is at the beginning of the upper half with strstart exactly MAX_DIST on |
| `Searcher.NearestSlides` | external/zlib/deflate.c:193-222 | in terms of the strings inserted: exactly that one string is lost, when nothing nearer has its hash |
| `Searcher.SlideLoses` | external/zlib/deflate.c:211-222 | an input for which a slide loses the one string there is |
| `RollingHash.LastThree` | external/zlib/contrib/optimizations/insert_string.h:93-99 | after three updates nothing is left of what was hashed before, for every hash_bits |
| `RollingHash.HashGood` | external/zlib/deflate.c:1408-1416 | equal hashes and two equal bytes make the third byte equal, which longest_match relies on |
| `RollingHash.PrimedNext` | external/zlib/contrib/optimizations/insert_string.h:101-110 | consecutive bytes keep ins_h ready for the next string |
| `Matcher.Matcher.InsertString` | external/zlib/contrib/optimizations/insert_string.h:111-123 | head and prev are the old ones with the string at the front of its chain, under the hash of its three bytes; the old head is returned, and it is the last string before with that hash |
| `Matcher.Matcher.Roll` | external/zlib/contrib/optimizations/insert_string.h:111-123 | the hash rolled on is the hash of the three bytes inserted |
| `Matcher.Matcher.InsertPending` | external/zlib/deflate.c:1635-1654 | exactly the strings held back that are complete now are inserted, and ins_h is ready for strstart |
| `Matcher.Matcher.Slide` | external/zlib/deflate.c:1592-1602 | the window moves down and all positions still mean the same bytes; every search stays as it was but for the one exception, stated as an if-and-only-if; match_start becomes what 32-bit subtraction gives |
| `Matcher.Matcher.FillWindow` | external/zlib/deflate.c:1564-1697 | input is appended without loss, exactly the strings held back are inserted, every search finds what could have been matched before a slide with at most the one exception, and enough lookahead is reached unless the input is used up |
| `Matcher.Matcher.SearchesAll` | external/zlib/deflate.c:1300-1459 | in every valid state of the matcher, every search visits exactly the strings inserted that can be matched |
| `Matcher.Matcher.InsertRun` | external/zlib/deflate.c:1971-1985 | exactly the strings of a match are inserted, up to the last complete one |
| `Matcher.Matcher.Compare` | external/zlib/deflate.c:1403-1441 | the length of the match of two strings of the window, up to 258 |
| `Matcher.Matcher.LongestMatch` | external/zlib/deflate.c:1300-1459 | a length longer than prev_length is a real match within MAX_DIST and the lookahead, and none of the nearest strings inserted with the same hash, as many as the chain length allows, has a longer one unless nice_match or the lookahead was reached |
| `Lossless.EmitLiteral` | external/zlib/deflate.h:326-333 | a literal of the next byte keeps the symbols a faithful account of the input |
| `Lossless.EmitPair` | external/zlib/deflate.h:334-344 | so does a pair whose bytes repeat earlier ones, overlap included |
| `LazyMatch.Finder.LazySearch` | external/zlib/deflate.c:2063-2089 | the search that may be replaced by a better match one byte later |
| `LazyMatch.Finder.SlowStep` | external/zlib/deflate.c:2058-2146 | one turn of lazy matching emits at most one symbol, and it stands for the bytes passed, also when the match start has become negative by a slide; a match of three bytes is never more than 4096 bytes back; ins_h stays ready |
| `LazyMatch.Finder.FastStep` | external/zlib/deflate.c:1949-2014 | one turn of greedy matching emits a symbol that stands for the bytes passed |
| `LazyMatch.Finder.RleStep` | external/zlib/deflate.c:2191-2226 | one turn of run-length matching emits a symbol that stands for the bytes passed |
| `LazyMatch.Finder.GiveUp` | external/zlib/deflate.c:2149-2153 | the byte still waiting becomes a literal |
| `DeflateBlocks.ToldSymbol` | external/zlib/deflate.c:2033-2162 | expanding the symbols so far gives the input up to the place reached |
| `DeflateBlocks.CodedBlock` | external/zlib/deflate.c:1703-1712 | one more block keeps everything written a coding of the input up to the block end, with no distance greater than the window is long |
| `DeflateBlocks.FlushPending` | external/zlib/deflate.c:793-813 | delivered bytes followed by those that wait in the pending buffer are everything written |
| `DeflateBlocks.WriteOut` | external/zlib/deflate.c:1703-1712 | all symbols since the last block become one block, written from the front of the empty pending buffer |
| `DeflateBlocks.EndOfInput` | external/zlib/deflate.c:2149-2161 | the block that ends a flush or the stream |
| `DeflateBlocks.FlushMark` | external/zlib/deflate.c:1086-1103 | the empty block after a flush, put at the front of an empty pending buffer; after a full flush all later input is told as if it were the first |
| `DeflateBlocks.CodedJoin` | external/zlib/deflate.c:1086-1103 | what decodes alone decodes after anything else as well, to the same bytes |
| `DeflateStream.GrownTrans` | external/zlib/zlib.h:356-359 | what lies between two full flushes decodes alone, and so does what lies between any two |
| `DeflateBlocks.TakeTurn` | external/zlib/deflate.c:2041-2147 | one turn of the loops: refill, match, flush a full block |
| `DeflateBlocks.Compress` | external/zlib/deflate.c:1928-2276 | over any number of turns the symbols emitted stand for the input and the bits written code it |
| `DeflateStream.Deflater.Proceed` | external/zlib/deflate.c:1059-1112 | the block part of a call, with the state the block functions return |
| `DeflateStream.Deflater.Deflate` | external/zlib/deflate.c:826-1139 | over every sequence of calls: input is taken in order until it or the space is used up, delivered bytes are the bytes written in order, Z_BUF_ERROR is returned exactly when there is nothing to do or no space, a completed sync or full flush delivers a coding of all input so far, and at the end of the stream the bytes delivered decode to exactly the input, and those after the last full flush alone to exactly the input after it |
| `BlockBound.StaticRate` | external/zlib/deflate.c:705-713 | in the fixed codes no symbol takes more than nine bits for each byte it stands for |
| `BlockBound.CheapestSize` | external/zlib/trees.c:912-1009 | whichever encoding is chosen, a block takes at most nine bits a byte and a small overhead |
| `BlockBound.FreeSize` | external/zlib/trees.c:945-994 | with its text at hand and a free choice, a block takes at most five bytes more than its text |
| `GreedyBound.DenseSize` | external/zlib/trees.c:961-971 | a block whose text has left the window takes no more than its text: it has few symbols for it, and a dynamic block is small enough |
| `StaticOverrun.FixedSize` | external/zlib/trees.c:945-977 | with fixed trees and its text at hand, a block takes at most five bytes more than its text if and only if the dynamic encoding, which is not written, is not the one that makes a stored block look too long, or the static encoding takes no more than that either |
| `StaticOverrun.FixedOverruns` | external/zlib/trees.c:945-977 | so it takes nine bits a byte for every block of 756 literals or more in at most 31 values from 144 to 255, if there are fewer than 2583 of them or at most 15 values |
| `StaticOverrun.AllLiterals` | external/zlib/deflate.c:1300-1459 | symbols that stand for a text in which no three bytes occur twice are all literals |
| `StaticOverrun.SampleBulky` | external/zlib/trees.c:945-977 | a text of 1500 bytes for which all this is so |
| `DeflateStream.Deflater.Overruns` | external/zlib/deflate.c:715-772 | with fixed trees the output for such a text, in one block, is larger than the tight value of deflateBound |
| `DeflateStream.TightBits` | external/zlib/deflate.c:769-771 | five bytes for each full block and for the last one is what the tight value allows |
| `DeflateBlocks.StaysNear` | external/zlib/deflate.c:1592-1602 | without matches the text of a block never leaves the window |
| `DeflateStream.Deflater.WithinBound` | external/zlib/deflate.c:715-772 | as long as only Z_NO_FLUSH and Z_FINISH have been used, all output stays below the conservative value of deflateBound for the input taken; with the default settings and without fixed trees it stays within the tight value, for all input and every way of matching |
| `StoredStream.StoredHeader` | external/zlib/deflate.c:1784-1797 | a dummy stored block whose length bytes are replaced is the header of the real one |
| `StoredStream.Store.Follow` | external/zlib/deflate.c:1828-1860 | after any direct copy the window holds the most recent input again |
| `StoredStream.Store.FillRest` | external/zlib/deflate.c:1873-1892 | input goes into the window as far as there is room, sliding it when that helps |
| `StoredStream.DirectBlock` | external/zlib/deflate.c:1784-1825 | header, bytes of the window and bytes of the input straight to the output are one stored block of the input |
| `StoredStream.CopyOut` | external/zlib/deflate.c:1749-1826 | direct blocks until none is possible or worth while |
| `StoredStream.PendingBlock` | external/zlib/deflate.c:1896-1915 | a block of waiting bytes goes to the pending buffer exactly when it is worthy or a flush asks for it, and fits there |
| `StoredStream.AllSpaceUsed` | external/zlib/deflate.c:1749-1918 | with input left over, or a flush not complete, the output space has been used up |
| `StoredStream.DeflateStored` | external/zlib/deflate.c:1741-1919 | over every call everything written codes the input but for the bytes waiting in the window; with enough space Z_FINISH ends the stream |
| `StoredStream.Storer.Deflate` | external/zlib/deflate.c:826-1139 | the calls of deflate at level 0: what is said of the other levels, and the space that is enough to finish |
| `StoredStream.Storer.WithinBound` | external/zlib/deflate.c:715-772 | at level 0 the conservative value holds for all settings and the tight value for the default ones |
| `DeflateStream.Init` | external/zlib/deflate.c:237-414 | a new stream with nothing taken and nothing written |
| `RoundTrip.SettledAgree` | external/zlib/inflate.c:624-1301 | any two sessions over the same bytes whose last call had all input and space left end with the same mode and output |
| `RoundTrip.SessionReads` | external/zlib/inflate.c:624-1301 | every session over compressed bytes gives a beginning of the text and no error, and all of it at the end |
| `RoundTrip.Compressed` | external/zlib/deflate.c:826-1139 | any schedule of calls of deflate that reaches the end of the stream, from the start or from any completed full flush on, has coded the data taken since in the bytes delivered since, which decode by themselves |
| `RoundTrip.SinglePass` | external/zlib/zlib.h:808-817 | a first call with all input, Z_FINISH and as much space as the conservative value of deflateBound returns the end of the stream |
| `RoundTrip.TightPass` | external/zlib/zlib.h:808-817 | with the default settings, without fixed trees, and with the tight value as space, a first call with all input and Z_FINISH delivers the whole stream, for all input and every way of matching; it returns the end of the stream unless the stream fills the space to the last byte |
| `RoundTrip.TightByDefault` | external/zlib/deflate.c:769-771 | that this covers the default settings for every length of the input |
| `RoundTrip.FixedExceeds` | external/zlib/zlib.h:808-817 | with fixed trees a single call on a text without matches in a few values delivers more bytes than the tight value |
| `RoundTrip.OneShot` | external/zlib/zlib.h:808-817 | one call of deflate with the value of deflateBound as space, the conservative one for fixed trees, and one call of inflate give back every input |
| `RoundTrip.CodedFits` | external/zlib/zlib.h:887-888 | a window that is at least as long as that of deflate is long enough for inflate |
| `RoundTrip.StoredThereAndBack` | external/zlib/deflate.c:1741-1919 | the round trip at level 0 |
| `RoundTrip.StoredOneShot` | external/zlib/zlib.h:808-817 | the same in one call each, with the tight value of deflateBound for the default settings |
| `RoundTrip.ThereAndBack` | external/zlib/deflate.c:826-1139 | inflate gives back what deflate took: for every input, window size, hash size, strategy, configuration, every window of inflate that is not shorter, and every schedule of calls on both sides |
| `RoundTrip.RestartHere` | external/zlib/zlib.h:356-359 | decompression can start after a completed full flush: inflate gives back the data since from the bytes since alone, at every level but 0 |
| `Adler.ReduceLater` | external/zlib/adler32.c:130-155 | reducing at the end gives the sums that reducing at every byte gives |
| `Adler.NmaxIsLargest` | external/zlib/adler32.c:13-14 | NMAX is exactly the largest number of bytes for which the bound on the sums stays below 2^32 |
| `Adler.NoOverflow` | external/zlib/adler32.c:130-155 | no sum leaves 32 bits within NMAX bytes, from any 16-bit sums |
| `Adler.Mod28Exact` | external/zlib/adler32.c:27-37 | division-free reduction is exact below 2^28 |
| `Adler.ModExact` | external/zlib/adler32.c:38-42 | division-free reduction is exact below 2^32 |
| `Adler.Mod63Exact` | external/zlib/adler32.c:43-55 | division-free reduction is exact below 2^63 |
| `Adler.Adler32` | external/zlib/adler32.c:68-159 | the per-byte definition of section 9 of RFC 1950, from reduced sums or for two bytes and more; for a single byte exactly if the second sum needs only one subtraction |
| `Adler.Combine` | external/zlib/adler32.c:171-197 | the reduced combination of two checksums, and 0xffffffff for a negative length |
| `Adler.CombineConcat` | external/zlib/adler32.c:171-197 | that combination is the checksum of the concatenation |
| `AdlerSimd.BlockSums` | external/zlib/adler32_simd.c:99-127 | a block adds the running sum once for each byte and its bytes by falling weight |
| `AdlerSimd.Group` | external/zlib/adler32_simd.c:75-154 | 173 blocks of lane sums with wrap-around arithmetic give the sums of the bytes: nothing leaves its lane |
| `AdlerSimd.Adler32Simd` | external/zlib/adler32_simd.c:56-197 | the vector form gives the per-byte checksum, for every length and from any sums |
| `Gf2.MulCommutes` | external/zlib/crc32.c:544-566 | the product modulo the CRC polynomial commutes |
| `Gf2.MulAssociates` | external/zlib/crc32.c:544-566 | and associates |
| `Gf2.PowerAdd` | external/zlib/crc32.c:568-586 | exponents of x add |
| `Gf2Powers.TableIs` | external/zlib/crc32.h:9439-9446 | the constants of x2n_table are x^(2^k) |
| `Gf2Powers.Repeats` | external/zlib/crc32.c:580-582 | x^(2^32) is x modulo the polynomial, so the index may wrap at 32 |
| `Crc.TableStep` | external/zlib/crc32.c:1076-1090 | a table step is eight bit steps |
| `Crc.RegXor` | external/zlib/crc32.c:718-730 | the register is linear in its start value |
| `Crc.MakeCrcTable` | external/zlib/crc32.c:284-293 | the table holds the CRC of every byte |
| `Crc.ByTable` | external/zlib/crc32.c:1075-1090 | the byte loop is the bit-at-a-time CRC |
| `CrcCombine.MultModP` | external/zlib/crc32.c:548-566 | the product modulo the polynomial, early exit included |
| `CrcCombine.MakeX2n` | external/zlib/crc32.c:295-299 | the table of x^(2^k) by squaring |
| `CrcCombine.StaticX2n` | external/zlib/crc32.h:9439-9446 | the static table serves as well as the one made by squaring |
| `CrcCombine.X2nModP` | external/zlib/crc32.c:572-586 | x^(n * 2^k) for every n and k |
| `CrcCombine.Combine` | external/zlib/crc32.c:1124-1133 | the first CRC advanced by len2 zero bytes, plus the second |
| `CrcCombine.CombineConcat` | external/zlib/crc32.c:1124-1133 | that is the CRC of the concatenation, for every length |
| `CrcBraid.MakeBraid` | external/zlib/crc32.c:511-528 | braid table k holds each byte advanced by the bits of n words less k bytes |
| `CrcBraid.BraidWord` | external/zlib/crc32.c:883-918 | eight table look-ups advance a word over n words, in 32 bits |
| `CrcBraid.BraidStep` | external/zlib/crc32.c:859-919 | after a block the braids stand for the words that are left |
| `CrcBraid.BraidEnd` | external/zlib/crc32.c:921-941 | the last block joins the braids to the register of all words |
| `CrcBraid.CrcWord` | external/zlib/crc32.c:723-730 | the CRC of the eight bytes of a word, in 32 bits |
| `CrcBraid.Crc32` | external/zlib/crc32.c:745-1094 | with any number of braids and any alignment, the bit-at-a-time CRC of section 8 of RFC 1952 |
| `AddressUnits.Trim` | external/zucchini/address_translator.cc:72-83 | fails exactly when a range is out of bounds, else every unit is trimmed |
| `AddressUnits.MergeImage` | external/zucchini/address_translator.cc:161-165 | a merged unit translates what either unit translated, as it did, and nothing else |
| `AddressUnits.MeetConflict` | external/zucchini/address_translator.cc:129-159 | overlapping units that cannot be merged give some RVA different meanings, where the meaning of a dangling RVA includes the end of the data before it |
| `AddressUnits.MeetDiffers` | external/zucchini/address_translator.cc:129-159 | they give some RVA different offsets if and only if not all RVAs they share dangle in both |
| `AddressUnits.MergeUnits` | external/zucchini/address_translator.cc:95-169 | in-place merging gives disjoint units of the same meaning, none of which could still be merged, or fails and there is a conflict |
| `AddressTranslator.CheckOffsets` | external/zucchini/address_translator.cc:176-183 | succeeds exactly when offsets do not overlap |
| `AddressTranslator.OffsetToUnit` | external/zucchini/address_translator.cc:235-246 | finds the unit that covers an offset if there is one |
| `AddressTranslator.RvaToUnit` | external/zucchini/address_translator.cc:248-256 | finds the unit that covers an RVA if there is one |
| `AddressTranslator.Translator.Initialize` | external/zucchini/address_translator.cc:70-212 | fails without change, or stores tables that mean what the sections mean; success needs sound sections (bounded, no RVA with two meanings, no offset with two RVAs, fake offsets fit) and no RVAs that dangle from the start in the middle of data, and is certain when none dangle where data is at all; for the two extreme orders of equal offsets these conditions are exact |
| `AddressTranslator.Translator.Translates` | external/zucchini/address_translator.cc:228-233 | an RVA translates to an offset exactly if some section alone translates it so, to a fake offset exactly if it dangles, and else to nothing |
| `AddressTranslator.Translator.RvaComesBack` | external/zucchini/address_translator.cc:214-233 | OffsetToRva undoes RvaToOffset, on dangling RVAs too |
| `AddressTranslator.Translator.OffsetComesBack` | external/zucchini/address_translator.cc:214-233 | RvaToOffset undoes OffsetToRva, on fake offsets too |
| `AddressTranslator.OrderMatters` | external/zucchini/address_translator.cc:172-183 | a section without data where the data of another begins: Initialize fails or succeeds by the order that sorting leaves open |
| `AddressTranslator.Extremes` | external/zucchini/address_translator.cc:172-183 | the exact conditions for success with the least and with the most favourable order, hence for success with every order and with some order |
| `AddressTranslator.OffsetCheck` | external/zucchini/address_translator.cc:172-183 | the outcome of the offset check in terms of what the units mean |
| `AddressTranslator.DataNeverPerched` | external/zucchini/address_translator.cc:85-86 | sections that all have data never depend on the order |
| `AddressUnits.SorterExists` | external/zucchini/address_translator.cc:88-92 | there are sorting routines as assumed |
| `AddressTranslator.OffsetToRvaCache.Convert` | external/zucchini/address_translator.cc:20-32 | the cache answers as the translator does, after any queries |
| `AddressTranslator.RvaToOffsetCache.Convert` | external/zucchini/address_translator.cc:52-60 | the cache answers as the translator does, after any queries |
| `AddressTranslator.RvaToOffsetCache.IsValid` | external/zucchini/address_translator.cc:40-50 | valid exactly if the RVA translates |
| `Abs32.KeptIsChoice` | external/zucchini/abs32_utils.cc:186-209 | what is kept is an ordered subsequence with gaps of at least width |
| `Abs32.DroppedOverlap` | external/zucchini/abs32_utils.cc:186-209 | what is dropped overlaps an earlier location that is kept |
| `Abs32.Largest` | external/zucchini/abs32_utils.cc:186-209 | no subsequence without overlap is larger |
| `Abs32.RemoveOverlapping` | external/zucchini/abs32_utils.cc:186-209 | the locations kept are moved to the front in place |

## Left out

- zlib and gzip headers and trailers, dictionaries, `deflateParams`, `deflatePrime`, `deflateTune`, `inflatePrime`, `inflateSync` but for its search: the streams are raw deflate data.
- The part of `_tr_flush_block` for level 0, which `deflate_stored` does not reach; switching levels; `s->matches`, which only matters when a level is switched.
- DeflateStream.Deflater.WithinBound: the tight value of `deflateBound` is not stated with fixed trees, where it is false: `StaticOverrun.FixedSize` has the exact condition for each block, `RoundTrip.FixedExceeds` the texts. The conservative value is proved for all settings.
- The hash of four bytes by CRC-32C that some processors use (`chromium_zlib_hash`, `insert_string_simd`).
- InflateStream.Inflater.Inflate: `Z_BLOCK` and `Z_TREES` as flush values, which stop between blocks and after headers.
- The overlay of symbol buffer and pending buffer in dynamic blocks, where the comment argues from an average over the block; that a dynamic block fits the pending buffer as a whole is proved.
- Zeroing of the window beyond the input (`high_water`), which only keeps memory checkers quiet.
- The big-endian branch of `crc32_z` and words of four bytes; SIMD and ARM forms of CRC-32; the NEON form of Adler-32.
- `infback.c`, the gz file functions, allocation failures, debug counters.
- From zucchini: reading and writing of references, `RemoveUntranslatableAbs32`, the disassemblers; they would add easy members or depend on view classes.
- Adler.Adler32: the dispatch to the vector form is not part of it.
- Adler.Mod28Exact: states exactness below 2^28 only, the range its name gives.
- DeflateStream.Init: takes match configurations with a chain length of at least 4, the least in `configuration_table`.
- Crc.MakeCrcTable: the 256 constants of `crc32.h` are not compared with it.
