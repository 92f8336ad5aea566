# Verified models of the BusyBox compressors, package database and expr

The project models four parts of BusyBox 1.17.3 in Dafny and proves what they are for.

**gzip** (`archival/gzip.c`). The LZ77 pass with its hash chains, sliding window and lazy matching is a class that
keeps one invariant through every read, slide and match (`HashChains`, `Deflate`). Its tokens go through the tally
buffers (`Tally`), the heap-based Huffman builder with its length-limiting repair (`PriorityHeap`, `HuffTree`,
`Optimal`, `Merge`, `BitLengths`, `Huffman`, `GenCodes`), the run-length coded trees (`CodeLengths`, `TreeSender`), and the bit
packer (`BitWriter`), and become stored, static or dynamic blocks (`TreeBuilding`, `SendBlock`, `FlushBlock`). An
inflater in terms of bit strings (`Canonical`, `TokenCode`, `BlockFormat`) is the other half, and `Rfc1951` a second one,
over bytes and bit positions, with the numbers that RFC 1951 prints and nothing shared with the compressor; `RfcAgrees`
proves them equal on every byte string. `Gzip.Zip` says that for every input, and every way the reads split it, the bytes
put out inflate to exactly the bytes read, while
`FlushBlock.Encoder.Flush` says that the sizes foretold from the frequencies are the bits sent. `Optimal` proves
Huffman's theorem for the trees: `Huffman.Builder.BuildTree` says that no prefix code is cheaper unless a level had to
be clamped, and that this takes frequencies that add up to a Fibonacci number.

**lzop** (`archival/lzo1x_*.c`, `archival/lzop.c`). `LzoFormat` defines what the LZO1X decoder makes of a byte
string, error codes included, and `LzoLayout` gives its byte layout in plain numbers; `LzoDecoder` proves the goto-driven decompressor against it, on one memory in which
stream and output may overlap. `LzoCompress` proves the LZO1X-1 round trip, its size bound and in-place decoding for
any dictionary contents, `LzoWriter` and `Lzo999` the same for the lazy matching of levels 7 to 9 and any matches its
finder reports, `LzoOptimize` that the in-place peephole optimizer preserves meaning and in-place decoding, `Adler32`
the checksum with deferred reduction, and `Lzop` the round trip of whole files at every level.

**dpkg** (`archival/dpkg.c`). Double hashing modulo a prime (`DpkgProbe`), the three tables (`DpkgTables`), the Debian
version order (`DpkgVersion`), the dependency edges (`DpkgEdges`) and the skip-ahead dependency check (`DpkgDeps`),
each against a simple specification; `DpkgOrder` and `DpkgLaws` say in plain character codes what the Debian Policy and the
source say of versions, operators, status words and dependency lines. One invariant ties the three tables together; the cleared tables meet it, every
insertion keeps it, and it is all that the dependency check asks for.

**expr** (`coreutils/expr.c`). The recursive descent evaluator with its shared cursor (`ExprEval`), and print-then-
evaluate for every expression tree (`ExprPrint`). `ExprLaws` says in plain strings and integers what the operators are,
and which binds tighter.

Conventions: integers are unbounded, and widths that matter (16-bit frequencies of merged nodes, 8-bit depths, 32-bit
checksums and pointer differences, the 16 bits of `bi_buf`) are written out. Bytes are integers from 0 to 255.
Pointers are indices. Calls that end the program with a message are results (`None`, `Fail`, a status code). Invariants
over arrays are predicates on snapshots of their contents, and the steps between them are small lemmas; the `hide`
statements only narrow what a proof may use.

`dafny verify dfyconfig.toml` checks the whole project.

## Model

| member | source | states |
|---|---|---|
| `HashChains.ThirdByte` | src/busybox-1.17.3/archival/gzip.c:1671-1671 | two strings with equal hashes and equal first two bytes have equal third bytes, which is why longest_match need not compare it |
| `HashChains.HashForgets` | src/busybox-1.17.3/archival/gzip.c:1671-1671 | three updates make the running hash independent of everything before them |
| `HashChains.InsertHonest` | src/busybox-1.17.3/archival/gzip.c:1701-1706 | inserting a string keeps every head and every chain link pointing to an earlier string with the same hash |
| `HashChains.SlideHonest` | src/busybox-1.17.3/archival/gzip.c:524-572 | sliding the window keeps heads and links honest |
| `HashChains.ReadHonest` | src/busybox-1.17.3/archival/gzip.c:524-572 | bytes read behind the strings already inserted change no hash |
| `Deflate.Deflater.InsertString` | src/busybox-1.17.3/archival/gzip.c:1701-1706 | the head returned is an honest link, and the chains stay honest with the new string in them |
| `Deflate.Deflater.CompareStrings` | src/busybox-1.17.3/archival/gzip.c:636-648 | the unrolled comparison yields the length of the common run, up to MAX_MATCH |
| `Deflate.Deflater.TryCandidate` | src/busybox-1.17.3/archival/gzip.c:616-650 | a candidate that passes the quick tests is a real match of the returned length, the uncompared third byte included |
| `Deflate.Deflater.LongestMatch` | src/busybox-1.17.3/archival/gzip.c:588-662 | an improvement on prev_length is a real match at match_start within MAX_DIST, and no candidate of the chain matches more bytes; without one match_start is untouched |
| `Deflate.Deflater.Slide` | src/busybox-1.17.3/archival/gzip.c:538-562 | the window still shows the input, the chains stay honest, and all positions move down by WSIZE, match_start with wrap-around |
| `Deflate.Deflater.FillWindow` | src/busybox-1.17.3/archival/gzip.c:524-572 | the window shows a longer piece of the input, or the end of the file is set |
| `Deflate.LowerAll` | src/busybox-1.17.3/archival/gzip.c:550-560 | every table entry moves down by WSIZE, entries below it become 0 |
| `Deflate.Deflater.LmInit` | src/busybox-1.17.3/archival/gzip.c:1830-1866 | after the first reads nothing is hashed, nothing is tallied and the window shows the input |
| `Deflate.Deflater.Tally` | src/busybox-1.17.3/archival/gzip.c:1473-1524 | the token is appended, and a buffer of LIT_BUFSIZE - 1 tokens always asks for a flush |
| `Deflate.Deflater.FlushBlock` | src/busybox-1.17.3/archival/gzip.c:1686-1693 | the block replays to exactly its input bytes; if block_start is not negative the window still holds them, and there are at most 65535 |
| `Deflate.Deflater.AdoptMatch` | src/busybox-1.17.3/archival/gzip.c:1752-1776 | the previous match becomes a token that replays the input, and the strings it covers are inserted |
| `Deflate.Deflater.TallyLiteral` | src/busybox-1.17.3/archival/gzip.c:1777-1786 | the byte before strstart becomes a literal that replays the input |
| `Deflate.Deflater.Step` | src/busybox-1.17.3/archival/gzip.c:1717-1796 | one turn of lazy matching keeps the invariant: tokens replay the input up to the pending byte, window and chains are honest |
| `Deflate.Deflater.Deflate` | src/busybox-1.17.3/archival/gzip.c:1708-1811 | the flushed blocks stand for exactly the bytes read, and exactly the last one is the final one |
| `Lz77.BlockLimits` | src/busybox-1.17.3/archival/gzip.c:109-124 | what a block can hold, in plain numbers: at most 8191 tokens, lengths 3 to 258, distances 1 to 32506 |
| `Deflate.Compress` | src/busybox-1.17.3/archival/gzip.c:1708-1811 | for every input and every way the reads split it, the blocks replay to the bytes read, with lengths 3..258 and distances 1..MAX_DIST, and stored bytes are exact and at most 65535 |
| `BitWriter.Writer.Put8` | src/busybox-1.17.3/archival/gzip.c:365-371 | one byte is appended to everything put out, and outcnt stays below OUTBUFSIZ |
| `BitWriter.Writer.Put16` | src/busybox-1.17.3/archival/gzip.c:373-383 | two bytes, least significant first, whose bits are the sixteen bits of the value |
| `BitWriter.Writer.SendBits` | src/busybox-1.17.3/archival/gzip.c:433-453 | the bits sent grow by exactly the field, least significant bit first, with 0 <= bi_valid <= 16 |
| `BitWriter.Writer.WindUp` | src/busybox-1.17.3/archival/gzip.c:477-489 | fewer than eight zero bits are added, and all bits sent are now whole bytes |
| `BitWriter.FieldOverflow` | src/busybox-1.17.3/archival/gzip.c:443-447 | a field that does not fit is split between bi_buf and the next word without losing a bit |
| `Canonical.PrefixFree` | src/busybox-1.17.3/archival/gzip.c:1148-1181 | no codeword of a code that fits is a prefix of another |
| `Canonical.ReadSymbolExact` | src/busybox-1.17.3/archival/gzip.c:1148-1181 | a decoder that looks for the codeword at the head of the bits finds the symbol sent, whatever follows |
| `GenCodes.BiReverse` | src/busybox-1.17.3/archival/gzip.c:461-471 | sent least significant bit first, the result spells the code most significant bit first |
| `GenCodes.GenCodes` | src/busybox-1.17.3/archival/gzip.c:1148-1181 | every symbol with a length gets its canonical codeword of section 3.2.2 of RFC 1951 |
| `PriorityHeap.PqDownHeap` | src/busybox-1.17.3/archival/gzip.c:1017-1039 | the heap property holds from k on, and the elements are the same |
| `PriorityHeap.Heapify` | src/busybox-1.17.3/archival/gzip.c:1251-1252 | the heap property holds everywhere, and the elements are the same |
| `PriorityHeap.RootLeast` | src/busybox-1.17.3/archival/gzip.c:1013-1039 | the root of a heap is not larger than any node |
| `Huffman.Builder.PopLeast` | src/busybox-1.17.3/archival/gzip.c:1199-1204 | a least node leaves the heap, the rest is a heap of the same other nodes |
| `Huffman.Builder.MergeTwo` | src/busybox-1.17.3/archival/gzip.c:1257-1278 | two least nodes get a common father, and heap, stack of removed nodes and Dad links stay consistent; unless the 16-bit frequencies can wrap, no weight is lost and every merge has joined the two lightest nodes |
| `HuffTree.ClampExcess` | src/busybox-1.17.3/archival/gzip.c:1073-1097 | the Kraft sum of the clamped leaf levels exceeds 1 by exactly half the number of clamped nodes |
| `Huffman.Builder.FirstPass` | src/busybox-1.17.3/archival/gzip.c:1067-1097 | every node has its level clamped to max_length, overflow counts the clamped nodes, and opt_len, static_len and bl_count are the sums over the leaves |
| `BitLengths.RepairPossible` | src/busybox-1.17.3/archival/gzip.c:1105-1108 | while the Kraft sum is too large there is a leaf above max_length, because elems <= 2^max_length |
| `BitLengths.RepairStep` | src/busybox-1.17.3/archival/gzip.c:1105-1116 | one repair lowers the Kraft sum by one unit of 2^-max_length and keeps the number of leaves |
| `Huffman.Builder.Repair` | src/busybox-1.17.3/archival/gzip.c:1105-1116 | the repair ends with a Kraft sum of exactly 1 and the number of leaves unchanged |
| `Huffman.Builder.Reassign` | src/busybox-1.17.3/archival/gzip.c:1123-1136 | the leaves get the repaired lengths, and opt_len follows the change |
| `Huffman.Builder.GenBitLen` | src/busybox-1.17.3/archival/gzip.c:1042-1137 | every leaf length is in 1..max_length, bl_count counts them, the Kraft sum is exactly 1, and opt_len and static_len grow by the exact cost; if no level was clamped no prefix code is cheaper |
| `Optimal.MergesCost` | src/busybox-1.17.3/archival/gzip.c:1257-1278 | no lengths with Kraft sum at most 1 for the nodes in the heap cost less than the weights of the merges still to come |
| `Optimal.TreeCost` | src/busybox-1.17.3/archival/gzip.c:1072-1094 | an unclamped tree costs exactly the weights of its merges |
| `Optimal.LeavesOptimal` | src/busybox-1.17.3/archival/gzip.c:1044-1050 | Huffman's theorem for the tree that the heap grows: its levels cost no more than any lengths with Kraft sum at most 1 |
| `Optimal.PickOrder` | src/busybox-1.17.3/archival/gzip.c:1257-1278 | the nodes leave the heap in order of increasing frequency |
| `Optimal.ClampedHeavy` | src/busybox-1.17.3/archival/gzip.c:1080-1084 | a level is clamped only if the frequencies add up to at least the Fibonacci number of max_length + 3 |
| `Huffman.Builder.ForceTwo` | src/busybox-1.17.3/archival/gzip.c:1236-1245 | after forcing there are at least two symbols, and the bits taken off opt_len and static_len are what the forced symbols will cost |
| `Huffman.Builder.BuildTree` | src/busybox-1.17.3/archival/gzip.c:1206-1289 | a complete canonical code for the symbols that occur or are forced, none longer than max_length, with opt_len and static_len grown by exactly what the block's symbols take; if the frequencies add up to less than 2^16, no prefix code takes fewer bits unless a level was clamped, and then they add up to at least the Fibonacci number of max_length + 3 |
| `CodeLengths.RunsLossless` | src/busybox-1.17.3/archival/gzip.c:1351-1402 | expanding the symbols 16, 17 and 18 as section 3.2.7 of RFC 1951 says gives back the code lengths |
| `CodeLengths.RunsFit` | src/busybox-1.17.3/archival/gzip.c:1351-1402 | every repeat count fits its extra bits |
| `CodeLengths.ReadLengthsExact` | src/busybox-1.17.3/archival/gzip.c:1351-1402 | the decoder reads back the lengths from the bits of the symbols |
| `TreeSender.ScanTree` | src/busybox-1.17.3/archival/gzip.c:1298-1344 | the counted frequencies are those of the symbols that send_tree sends, and the guard is set |
| `TreeSender.SendTree` | src/busybox-1.17.3/archival/gzip.c:1351-1402 | the bits sent are exactly those of the run-length code of the tree |
| `TreeSender.OccursChunk` | src/busybox-1.17.3/archival/gzip.c:1320-1330 | how often each symbol occurs in one run |
| `DeflateTables.PrintedBases` | src/busybox-1.17.3/archival/gzip.c:1891-1919 | the smallest length and distance of each code, as section 3.2.5 of RFC 1951 prints them |
| `DeflateTables.PrintedExtraBits` | src/busybox-1.17.3/archival/gzip.c:762-772 | the numbers of extra bits, as section 3.2.5 of RFC 1951 prints them |
| `DeflateTables.Partition` | src/busybox-1.17.3/archival/gzip.c:762-772 | the codes partition the lengths and the distances without gap or overlap |
| `DeflateTables.InitLengths` | src/busybox-1.17.3/archival/gzip.c:1889-1902 | every match length maps to its length code, 258 to a code of its own, and base_length holds the smallest length |
| `DeflateTables.InitNear` | src/busybox-1.17.3/archival/gzip.c:1904-1912 | distances up to 256 map to their codes one by one |
| `DeflateTables.InitFar` | src/busybox-1.17.3/archival/gzip.c:1913-1920 | larger distances map to their codes in groups of 128 |
| `DeflateTables.DCodeRight` | src/busybox-1.17.3/archival/gzip.c:972-973 | D_CODE yields the distance code of every distance |
| `CtInit.StaticLTree` | src/busybox-1.17.3/archival/gzip.c:1927-1948 | the static literal tree is the code of section 3.2.6 of RFC 1951 |
| `CtInit.StaticDTree` | src/busybox-1.17.3/archival/gzip.c:1950-1954 | the static distance tree is the five-bit code of section 3.2.6 of RFC 1951 |
| `CtInit.BuildStatics` | src/busybox-1.17.3/archival/gzip.c:1875-1958 | all constant tables of ct_init are right |
| `TokenCode.ReadItemExact` | src/busybox-1.17.3/archival/gzip.c:1529-1572 | the decoder of section 3.2.3 of RFC 1951 reads back each token with its extra bits |
| `TokenCode.ReadTokensExact` | src/busybox-1.17.3/archival/gzip.c:1529-1572 | the decoder reads back all tokens of a block and stops after the end-of-block symbol |
| `TokenSize.TokensSize` | src/busybox-1.17.3/archival/gzip.c:1085-1097 | the bits of a block are what the symbol frequencies cost under the code lengths |
| `TokenSize.TokensCounted` | src/busybox-1.17.3/archival/gzip.c:1473-1492 | every symbol a token needs has a frequency, so it gets a code |
| `Tally.Buffers.StoreFlag` | src/busybox-1.17.3/archival/gzip.c:1491-1500 | flag_buf holds the flags of all full groups of eight tokens |
| `Tally.Buffers.CtTally` | src/busybox-1.17.3/archival/gzip.c:1473-1500 | l_buf, d_buf and flag_buf hold the tokens with the new one, and the frequencies count it |
| `BlockCode.FetchToken` | src/busybox-1.17.3/archival/gzip.c:1540-1568 | the next token comes back from l_buf, d_buf and flag_buf |
| `BlockCode.SendLength` | src/busybox-1.17.3/archival/gzip.c:1548-1555 | the length code and its extra bits are sent |
| `BlockCode.SendDist` | src/busybox-1.17.3/archival/gzip.c:1556-1566 | the distance code and its extra bits are sent |
| `BlockCode.CompressBlock` | src/busybox-1.17.3/archival/gzip.c:1529-1572 | the bits sent are those of exactly the recorded tokens, then END_BLOCK |
| `BlockFormat.StaticFit` | src/busybox-1.17.3/archival/gzip.c:1927-1954 | the static codes fit, and every symbol has one |
| `BlockFormat.ReadTreesExact` | src/busybox-1.17.3/archival/gzip.c:1444-1466 | the decoder recovers both trees from the header of a dynamic block |
| `BlockFormat.StoredDecodes` | src/busybox-1.17.3/archival/gzip.c:496-513 | whatever follows, a stored block reads back as its bytes, from any bit position |
| `BlockFormat.StaticDecodes` | src/busybox-1.17.3/archival/gzip.c:1640-1643 | whatever follows, a static block reads back as its tokens |
| `BlockFormat.DynamicDecodes` | src/busybox-1.17.3/archival/gzip.c:1644-1650 | whatever follows, a dynamic block reads back as its tokens |
| `BlockTrees.OpsSize` | src/busybox-1.17.3/archival/gzip.c:1298-1344 | the bits of the tree header symbols are what scan_tree's frequencies cost |
| `BlockTrees.TreesSize` | src/busybox-1.17.3/archival/gzip.c:1424-1432 | the header of a dynamic block takes 14 bits, 3 per code length code sent, and the cost of its symbols |
| `BlockTrees.DataCost` | src/busybox-1.17.3/archival/gzip.c:1085-1097 | tokens and end-of-block symbol take exactly what opt_len or static_len counts |
| `BlockTrees.SomeLength` | src/busybox-1.17.3/archival/gzip.c:1424-1427 | at least four code length codes are sent, because some length other than 0 is |
| `BlockTrees.HeaderReady` | src/busybox-1.17.3/archival/gzip.c:1409-1436 | the trees that build_bl_tree leaves behind make a readable header |
| `TreeBuilding.Forest.Reset` | src/busybox-1.17.3/archival/gzip.c:984-1001 | the frequencies are those of a block without tokens |
| `TreeBuilding.Forest.BuildData` | src/busybox-1.17.3/archival/gzip.c:1587-1595 | both trees of a block are complete codes with exact costs, and unless a level was clamped, which takes some 2580 tokens, no prefix codes take fewer bits |
| `TreeBuilding.Forest.BuildBlTree` | src/busybox-1.17.3/archival/gzip.c:1409-1436 | the header is ready to be sent, max_blindex is the last length needed, and opt_len grows by the exact size of the header |
| `TreeBuilding.Forest.BuildTrees` | src/busybox-1.17.3/archival/gzip.c:1587-1600 | all three trees are ready, and opt_len and static_len are the exact sizes of the block |
| `SendBlock.SendAllTrees` | src/busybox-1.17.3/archival/gzip.c:1444-1466 | the bits sent are the counts, the code length code and both trees |
| `SendBlock.CopyBlock` | src/busybox-1.17.3/archival/gzip.c:496-513 | padding to a byte, LEN and its complement, and the bytes |
| `SendBlock.SendStored` | src/busybox-1.17.3/archival/gzip.c:1626-1638 | the bits decode to the bytes, and their number is what compressed_len adds |
| `SendBlock.SendStatic` | src/busybox-1.17.3/archival/gzip.c:1640-1643 | the bits decode to the tokens, and their number is 3 + static_len |
| `SendBlock.SendDynamic` | src/busybox-1.17.3/archival/gzip.c:1644-1650 | the bits decode to the tokens, and their number is 3 + opt_len |
| `FlushBlock.Encoder.InitBlock` | src/busybox-1.17.3/archival/gzip.c:984-1001 | buffers and counters hold the empty block |
| `FlushBlock.Encoder.SendChosen` | src/busybox-1.17.3/archival/gzip.c:1602-1651 | the block is sent as its stored bytes exactly when these take no more bytes than both compressed forms, otherwise in the shorter of these, and compressed_len equals the bits sent |
| `FlushBlock.Encoder.Flush` | src/busybox-1.17.3/archival/gzip.c:1580-1662 | the bits decode to the block, compressed_len equals the bits sent after every block, and the last result is the number of bytes put out |
| `Gzip.TallyAll` | src/busybox-1.17.3/archival/gzip.c:1473-1524 | the buffers hold the tokens of a block, and nothing is sent |
| `Gzip.EncodeBlock` | src/busybox-1.17.3/archival/gzip.c:1580-1662 | the stream so far inflates to the input up to the end of the block |
| `Gzip.OneMoreBlock` | src/busybox-1.17.3/archival/gzip.c:1626-1650 | appending a block to a stream that inflates to out gives one that inflates to out and the block |
| `RfcAgrees.BlockTypes` | src/busybox-1.17.3/archival/gzip.c:782-783 | the two type bits of a block as section 3.2.3 of RFC 1951 prints them: 00 stored, 01 the fixed codes, 10 dynamic codes, 11 an error |
| `RfcAgrees.FieldAgrees` | src/busybox-1.17.3/archival/gzip.c:433-453 | a field is a number whose least significant bit comes first, bytes included |
| `RfcAgrees.ReadAgrees` | src/busybox-1.17.3/archival/gzip.c:1148-1181 | the symbols of any code lengths are those of the algorithm of section 3.2.2 of RFC 1951, codes most significant bit first |
| `RfcAgrees.SymbolsAgree` | src/busybox-1.17.3/archival/gzip.c:1529-1572 | literals, lengths, distances and the end of a block are those of section 3.2.5 of RFC 1951, with the printed tables |
| `RfcAgrees.CodeLengthsAgree` | src/busybox-1.17.3/archival/gzip.c:1351-1402 | the repeat codes 16, 17 and 18 are those of section 3.2.7 of RFC 1951 |
| `RfcAgrees.DynamicAgrees` | src/busybox-1.17.3/archival/gzip.c:1444-1466 | HLIT, HDIST, HCLEN and the order of the code length code are those of section 3.2.7 of RFC 1951 |
| `RfcAgrees.StoredAgrees` | src/busybox-1.17.3/archival/gzip.c:496-513 | byte boundary, LEN and its complement are those of section 3.2.4 of RFC 1951 |
| `RfcAgrees.InflateAgrees` | src/busybox-1.17.3/archival/gzip.c:1580-1662 | for every byte string the decoder that the blocks are proved against gives what the inflater of RFC 1951, defined on its own, gives |
| `Gzip.Zip` | src/busybox-1.17.3/archival/gzip.c:1981-1989 | for every input and every way the reads split it, the compressed bytes inflate by RFC 1951 to exactly the bytes read |
| `LzoFormat.ReadHead` | src/busybox-1.17.3/archival/lzo1x_d.c:74-325 | the coded part of an instruction: its size, and where the literal count of a match stands |
| `LzoLayout.AfterLongRun` | src/busybox-1.17.3/archival/lzo1x_d.c:150-165 | after four or more literals a first byte below 16 copies three bytes from the offsets 2049 to 3072 |
| `LzoLayout.AfterFewLiterals` | src/busybox-1.17.3/archival/lzo1x_d.c:298-324 | after one to three literals a first byte below 16 copies two bytes from the offsets 1 to 1024 |
| `LzoLayout.ShortMatch` | src/busybox-1.17.3/archival/lzo1x_d.c:170-200 | a first byte from 64 up copies three to eight bytes from the offsets 1 to 2048 |
| `LzoLayout.MiddleMatch` | src/busybox-1.17.3/archival/lzo1x_d.c:218-252 | a first byte from 33 to 63 copies three to 33 bytes from the offsets 1 to 16384 |
| `LzoLayout.LongMiddleMatch` | src/busybox-1.17.3/archival/lzo1x_d.c:218-252 | after a byte 32 the length is a number and 33 |
| `LzoLayout.FarMatch` | src/busybox-1.17.3/archival/lzo1x_d.c:253-297 | a first byte from 16 to 31 copies three to nine bytes from the offsets 16385 to 49151, and offset 16384 is the end |
| `LzoLayout.LongFarMatch` | src/busybox-1.17.3/archival/lzo1x_d.c:253-297 | after a byte 16 or 24 the length is a number and 9 |
| `LzoLayout.LongNumber` | src/busybox-1.17.3/archival/lzo1x_d.c:88-96 | in a number zero bytes stand for 255 each |
| `LzoLayout.EndMarker` | src/busybox-1.17.3/archival/lzo1x_d.c:290-297 | the bytes 17 0 0 end the stream in every mode |
| `LzoLayout.ShortRun` | src/busybox-1.17.3/archival/lzo1x_d.c:83-97 | from 1 to 15 a run of four to 18 literals |
| `LzoLayout.FirstRun` | src/busybox-1.17.3/archival/lzo1x_d.c:72-80 | at the very start everything above 17 is a run of one to 238 literals |
| `LzoLayout.LongRun` | src/busybox-1.17.3/archival/lzo1x_d.c:83-97 | after a zero byte a run has a number and 18 literals |
| `LzoLayout.NearOffsets` | src/busybox-1.17.3/archival/lzo1x_d.c:298-324 | every near offset is reached exactly once for each number of literals |
| `LzoLayout.ShortOffsets` | src/busybox-1.17.3/archival/lzo1x_d.c:170-200 | every short offset is reached exactly once for each length and number of literals |
| `LzoLayout.FarOffsets` | src/busybox-1.17.3/archival/lzo1x_d.c:218-297 | every middle and far offset is reached exactly once for each number of literals |
| `LzoLayout.RunDoes` | src/busybox-1.17.3/archival/lzo1x_d.c:97-134 | the literals go out as they are, and their number decides how the next byte is read |
| `LzoLayout.MatchDoes` | src/busybox-1.17.3/archival/lzo1x_d.c:335-388 | a match repeats what stands off bytes back, its own bytes included, and then its literals go out |
| `LzoLayout.CodableMeans` | src/busybox-1.17.3/archival/lzo1x_9x.c:616-643 | which matches can be coded after which runs, in plain numbers |
| `LzoLayout.CodeSizes` | src/busybox-1.17.3/archival/lzo1x_9x.c:616-643 | the sizes of the match classes in plain numbers |
| `LzoFormat.RoomBehind` | src/busybox-1.17.3/archival/lzo1x_d.c:74-388 | a stream behind the output buffer is never overwritten |
| `LzoFormat.RoomGrows` | src/busybox-1.17.3/archival/lzo1x_d.c:74-388 | a stream that decodes in place also does so with a larger gap |
| `LzoDecoder.Decoder.FetchExt` | src/busybox-1.17.3/archival/lzo1x_d.c:88-96 | zero bytes and the byte after them as a length, with a test for the end of the input |
| `LzoDecoder.Decoder.FetchMatch` | src/busybox-1.17.3/archival/lzo1x_d.c:168-299 | the length and offset of M2, M3 and M4 matches, and the end marker |
| `LzoDecoder.Decoder.CopyLits` | src/busybox-1.17.3/archival/lzo1x_d.c:97-134 | literals are copied down, also within one buffer, without touching what is unread |
| `LzoDecoder.Decoder.CopyMatch` | src/busybox-1.17.3/archival/lzo1x_d.c:355-358 | the match is copied byte by byte, repeating its own output where it overlaps |
| `LzoDecoder.Decoder.TakeCopy` | src/busybox-1.17.3/archival/lzo1x_d.c:335-388 | match, then the late read of ip[-2], then its literals, with the overrun tests in order |
| `LzoDecoder.Decoder.Step` | src/busybox-1.17.3/archival/lzo1x_d.c:83-388 | one instruction does what the specification says, error codes included |
| `LzoDecoder.Decompress` | src/busybox-1.17.3/archival/lzo1x_d.c:33-420 | for every stream the decoder ends within its buffers; the returned code and the bytes written are those of the specification whenever the stream leaves room, even when input and output overlap |
| `LzoCode.RunExact` | src/busybox-1.17.3/archival/lzo1x_c.c:130-151 | the head of a literal run reads back as its length |
| `LzoCode.MatchExact` | src/busybox-1.17.3/archival/lzo1x_9x.c:504-569 | after lit literals the decoder reads back length and offset of every match, also after its literal count has been patched in |
| `LzoCode.MatchCodeSize` | src/busybox-1.17.3/archival/lzo1x_9x.c:616-643 | how many bytes each match class takes |
| `LzoReach.MatchReady` | src/busybox-1.17.3/archival/lzo1x_9x.c:504-595 | a stream extended by a match decodes to the copied bytes, with zero to three literals patched in later |
| `LzoReach.ExtendRun` | src/busybox-1.17.3/archival/lzo1x_9x.c:572-595 | a stream extended by a run decodes to the bytes and the run |
| `LzoReach.Finish` | src/busybox-1.17.3/archival/lzo1x_c.c:290-295 | with the end marker the decoder returns LZO_E_OK and what was written |
| `LzoWriter.StoreHead` | src/busybox-1.17.3/archival/lzo1x_9x.c:577-591 | a short run is patched into op[-2], a longer one gets its own head |
| `LzoWriter.StoreRun` | src/busybox-1.17.3/archival/lzo1x_9x.c:572-595 | what has been written decodes to the bytes before and the run |
| `LzoWriter.CodeMatch` | src/busybox-1.17.3/archival/lzo1x_9x.c:504-569 | exactly the bytes of the match class for this length, offset and run |
| `LzoWriter.LenOfCodedMatch` | src/busybox-1.17.3/archival/lzo1x_9x.c:616-643 | -1 exactly when the match cannot be coded after the run, otherwise the bytes that code_match emits |
| `Lzo999.Coder.CodeRun` | src/busybox-1.17.3/archival/lzo1x_9x.c:598-610 | the run is stored and r1_lit set |
| `Lzo999.BetterMatch` | src/busybox-1.17.3/archival/lzo1x_9x.c:675-711 | the match taken instead is a real one, and can be coded wherever the other could |
| `Lzo999.FitsSize` | src/busybox-1.17.3/archival/lzo1x_9x.c:782-786 | a match that passes the test for far matches of three bytes takes no more bytes than it stands for, and fewer after four or more literals |
| `Lzo999.Coder.FindMatch` | src/busybox-1.17.3/archival/lzo1x_9x.c:456-488 | the window moves on by exactly the bytes not yet searched, and the answer is for the new position |
| `Lzo999.Coder.Accept` | src/busybox-1.17.3/archival/lzo1x_9x.c:769-802 | a match that is accepted repeats earlier bytes, can be coded after the pending literals, and does not cost more than it saves |
| `Lzo999.Coder.Emit` | src/busybox-1.17.3/archival/lzo1x_9x.c:863-869 | run and match extend a stream that decodes to the input so far, and its size bound |
| `Lzo999.Coder.TakeUp` | src/busybox-1.17.3/archival/lzo1x_9x.c:831-860 | when a later match is taken up, what has been sent and the pending literals still cover the input |
| `Lzo999.Coder.TryLazy` | src/busybox-1.17.3/archival/lzo1x_9x.c:818-861 | however the lazy search ends, what has been sent and the pending literals cover the input up to the position searched |
| `Lzo999.Coder.Turn` | src/busybox-1.17.3/archival/lzo1x_9x.c:756-876 | one turn of the main loop moves on, and what has been sent and the pending literals cover the input |
| `Lzo999.Compress999` | src/busybox-1.17.3/archival/lzo1x_9x.c:720-894 | for every input and whatever matches the finder reports, the stream decodes to the input in a buffer of exactly its size, is at most MAX_COMPRESSED_SIZE long, and decodes in place from the end of such a buffer |
| `LzoCompress.CheckEntry` | src/busybox-1.17.3/archival/liblzo.h:58-64 | a dictionary entry passes exactly when its distance modulo 2^32 is in range and in the input |
| `LzoCompress.FindMatch` | src/busybox-1.17.3/archival/lzo1x_c.c:53-92 | any match reported was compared byte by byte, four bytes when it is far |
| `LzoCompress.MatchLength` | src/busybox-1.17.3/archival/lzo1x_c.c:155-200 | the length is that of a real match, which ends at a different byte or at the end of the input |
| `LzoCompress.EmitMatch` | src/busybox-1.17.3/archival/lzo1x_c.c:162-237 | the bytes are those of code_match for the same length and offset |
| `LzoCompress.StoreMatch` | src/busybox-1.17.3/archival/lzo1x_c.c:126-241 | run and match extend a stream that decodes to the input so far, and its size bound |
| `LzoCompress.DoCompress` | src/busybox-1.17.3/archival/lzo1x_c.c:30-248 | the stream decodes to all input but the returned rest, for any dictionary |
| `LzoCompress.MatchSize` | src/busybox-1.17.3/archival/lzo1x_c.c:162-237 | every match that LZO1X-1 codes is shorter than what it stands for |
| `LzoCompress.StillSmall` | src/busybox-1.17.3/archival/lzop.c:599-599 | a run and a match grow the stream by at most a sixteenth more than the input |
| `LzoCompress.StoreLast` | src/busybox-1.17.3/archival/lzo1x_c.c:265-292 | the last literals and the end marker keep the round trip, the size bound and in-place decoding |
| `LzoCompress.Compress` | src/busybox-1.17.3/archival/lzo1x_c.c:253-296 | for every input and any dictionary the stream decodes to the input in a buffer of exactly its size, is at most MAX_COMPRESSED_SIZE long, and decodes in place from the end of such a buffer |
| `LzoPatch.MatchLocal` | src/busybox-1.17.3/archival/lzo1x_d.c:168-325 | a match depends only on its own bytes, and not on the literal count among them |
| `LzoPatch.RunLocal` | src/busybox-1.17.3/archival/lzo1x_d.c:83-96 | a run head depends only on its own bytes |
| `LzoPatch.JoinLits` | src/busybox-1.17.3/archival/lzop.c:157-167 | turning a match into literals of the short run before it keeps what the stream decodes to |
| `LzoPatch.JoinShort` | src/busybox-1.17.3/archival/lzop.c:168-191 | joining a short run, a match and a run keeps what the stream decodes to |
| `LzoPatch.JoinLong` | src/busybox-1.17.3/archival/lzop.c:211-227 | joining a long run, a match and a run keeps what the stream decodes to |
| `LzoOptimize.Copy2` | src/busybox-1.17.3/archival/lzop.c:47-54 | the two bytes that the match would have copied, the overlapping offset 1 included |
| `LzoOptimize.Copy3` | src/busybox-1.17.3/archival/lzop.c:56-70 | the three bytes that the match would have copied, the overlapping offsets 1 and 2 included |
| `LzoOptimize.EditLits` | src/busybox-1.17.3/archival/lzop.c:160-166 | the bytes of the stream after o_m1_a and o_m3_a |
| `LzoOptimize.EditShort` | src/busybox-1.17.3/archival/lzop.c:175-188 | the bytes of the stream after o_m1_b and o_m3_b, memmove included |
| `LzoOptimize.EditLong` | src/busybox-1.17.3/archival/lzop.c:216-222 | the bytes of the stream after o_m2 |
| `LzoOptimize.Optimizer.OnMatch` | src/busybox-1.17.3/archival/lzop.c:148-298 | whichever rewrite applies, the rewritten prefix and the rest lead to the original result |
| `LzoOptimize.Optimizer.Step` | src/busybox-1.17.3/archival/lzop.c:108-316 | one instruction keeps the equivalence, and the end is reached with the same text |
| `LzoOptimize.Optimize` | src/busybox-1.17.3/archival/lzop.c:78-328 | for every valid stream the rewritten stream has the same length, decodes to the same bytes, which are the bytes left in the output buffer, and decodes in place wherever the stream did |
| `Adler32.LzoAdler32` | src/busybox-1.17.3/archival/lzop.c:439-466 | the checksum is that of section 2.2 of RFC 1950 taken byte by byte, for every length |
| `Adler32.ClosedForm` | src/busybox-1.17.3/archival/lzop.c:439-466 | the closed form of section 2.2 of RFC 1950: s1 is the start value and all bytes, s2 the sum of all values of s1, modulo 65521 |
| `Adler32.Chunk` | src/busybox-1.17.3/archival/lzop.c:455-464 | no 32-bit addition wraps within NMAX bytes |
| `Adler32.NoWrap` | src/busybox-1.17.3/archival/lzop.c:442-447 | the sums stay below 2^32 for NMAX bytes, from any starting value of 16 bits |
| `Adler32.AdlerPieces` | src/busybox-1.17.3/archival/lzop.c:493-500 | checksumming in pieces is checksumming the concatenation |
| `Lzop.PackBlock` | src/busybox-1.17.3/archival/lzop.c:624-692 | the record stands for the block, compressed or stored, with its checksum |
| `Lzop.BufferSizes` | src/busybox-1.17.3/archival/lzop.c:596-599 | the largest compressed size and the largest block in plain numbers |
| `Lzop.PackBest` | src/busybox-1.17.3/archival/lzop.c:640-692 | the optimizer never fails on a block just compressed, and the record stands for the block, with its checksum, and decodes in place |
| `Lzop.UnpackBlock` | src/busybox-1.17.3/archival/lzop.c:725-819 | a record that stands for a text yields exactly that text, decompressed in place, whatever the block size so far; what is accepted has the length and the checksum of the record |
| `Lzop.PackFile` | src/busybox-1.17.3/archival/lzop.c:624-692 | at every level lzop does not give up, and the records stand for consecutive pieces of the file |
| `Lzop.UnpackFile` | src/busybox-1.17.3/archival/lzop.c:725-820 | records that stand for texts yield the texts, whatever the block size to start with |
| `Lzop.RoundTrip` | src/busybox-1.17.3/archival/lzop.c:725-820 | every file comes back, at every level, whatever its length, the block sizes, the dictionary and the matches reported |
| `DpkgProbe.NoProduct` | src/busybox-1.17.3/archival/dpkg.c:145-146 | a prime divides no product of two smaller positive numbers |
| `DpkgProbe.ProbeDistinct` | src/busybox-1.17.3/archival/dpkg.c:160-163 | within p steps no slot is probed twice |
| `DpkgProbe.ProbeCovers` | src/busybox-1.17.3/archival/dpkg.c:160-163 | in p steps every slot is probed |
| `DpkgProbe.TablePrimes` | src/busybox-1.17.3/archival/dpkg.c:49-77 | the three table sizes are prime |
| `DpkgTables.MakeHash` | src/busybox-1.17.3/archival/dpkg.c:130-147 | start is below the prime, and the decrement between 1 and the prime less 1 |
| `DpkgTables.Search` | src/busybox-1.17.3/archival/dpkg.c:156-164 | with one slot that is free or a hit the probing ends, at a hit or a free slot, after passing only entries that are no hits |
| `DpkgTables.HitIsFound` | src/busybox-1.17.3/archival/dpkg.c:323-336 | a search cannot stop at a free slot before a reachable hit |
| `DpkgTables.StillReached` | src/busybox-1.17.3/archival/dpkg.c:646-648 | filling a slot leaves every slot reachable |
| `DpkgTables.IndexIsName` | src/busybox-1.17.3/archival/dpkg.c:150-167 | two indices are equal exactly when the names are |
| `DpkgTables.Intern` | src/busybox-1.17.3/archival/dpkg.c:150-167 | the index of the name, added only if it was nowhere in the table; no other index changes |
| `DpkgTables.SearchPackage` | src/busybox-1.17.3/archival/dpkg.c:317-338 | a package that matches name and version, or a free slot if no stored package does |
| `DpkgTables.StorePackage` | src/busybox-1.17.3/archival/dpkg.c:642-650 | a package replaces one of the same name and an equal version or, only if there is none, is added, and all stay reachable |
| `DpkgTables.SearchStatus` | src/busybox-1.17.3/archival/dpkg.c:172-188 | the status entry of the package, or a free slot if it has none |
| `DpkgTables.StoreStatus` | src/busybox-1.17.3/archival/dpkg.c:756-758 | a status replaces that of the same package or is added, and no package gets two |
| `DpkgVersion.CompareTexts` | src/busybox-1.17.3/archival/dpkg.c:209-216 | non-digit parts compare in the order of their characters, and neither index passes the terminator |
| `DpkgVersion.CompareNumbers` | src/busybox-1.17.3/archival/dpkg.c:218-235 | digit runs compare by their numeric value, leading zeros ignored |
| `DpkgVersion.VersionComparePart` | src/busybox-1.17.3/archival/dpkg.c:201-238 | the sign is that of comparing alternating non-digit and number parts, padded with ("", 0) |
| `DpkgVersion.PartsFlip` | src/busybox-1.17.3/archival/dpkg.c:201-238 | the comparison is sign-antisymmetric |
| `DpkgVersion.PartsChain` | src/busybox-1.17.3/archival/dpkg.c:201-238 | the comparison is transitive |
| `DpkgVersion.VersionCompare` | src/busybox-1.17.3/archival/dpkg.c:244-295 | epoch, then upstream version, then revision |
| `DpkgVersion.VersionsFlip` | src/busybox-1.17.3/archival/dpkg.c:244-295 | version comparison is sign-antisymmetric |
| `DpkgVersion.VersionsChain` | src/busybox-1.17.3/archival/dpkg.c:244-295 | version comparison is transitive |
| `DpkgOrder.PartsInOrder` | src/busybox-1.17.3/archival/dpkg.c:190-216 | after any common beginning a tilde comes before the end, the end before everything else, letters before other characters, and equal classes go by their codes |
| `DpkgOrder.NumbersInOrder` | src/busybox-1.17.3/archival/dpkg.c:218-235 | after any common beginning that does not end in a digit, numbers compare as decimal numbers |
| `DpkgOrder.VersionParts` | src/busybox-1.17.3/archival/dpkg.c:244-280 | the epoch ends at the first colon, the revision starts after the last dash |
| `DpkgOrder.EpochNumber` | src/busybox-1.17.3/archival/dpkg.c:250-262 | an epoch may have blanks and a sign, and is stored in 32 bits |
| `DpkgOrder.VersionsInOrder` | src/busybox-1.17.3/archival/dpkg.c:244-315 | the order of section 5.6.12 of the Debian Policy for whole versions, and what each operator makes of it |
| `DpkgOrder.NumberedVersions` | src/busybox-1.17.3/archival/dpkg.c:244-315 | versions that differ in a number compare by it, under every operator |
| `DpkgOrder.EpochsAndRevisions` | src/busybox-1.17.3/archival/dpkg.c:244-315 | a smaller epoch is older whatever follows, then the upstream version decides, then the revision |
| `DpkgVersion.Trichotomy` | src/busybox-1.17.3/archival/dpkg.c:297-315 | exactly one of <, = and > holds, and the weak operators are their unions |
| `DpkgEdges.MakeEdge` | src/busybox-1.17.3/archival/dpkg.c:420-466 | the edge has the name, version and operator that the alternative spells out; None exactly when the operator is illegal |
| `DpkgEdges.AddField` | src/busybox-1.17.3/archival/dpkg.c:404-473 | an OR edge with the exact count precisely when a dependency has a choice, then one edge per alternative; None exactly when there is no alternative or an illegal operator |
| `DpkgEdges.AddSplitDependencies` | src/busybox-1.17.3/archival/dpkg.c:390-480 | the edges of every field of the line in order, nothing else; None exactly when there is no field or a bad one |
| `DpkgEdges.FieldMeans` | src/busybox-1.17.3/archival/dpkg.c:378-388 | the check accepts the edges of a dependency field exactly when one of its alternatives is met |
| `DpkgEdges.LineMeans` | src/busybox-1.17.3/archival/dpkg.c:378-388 | the check accepts the edges of a whole line exactly when every field has an alternative that is met |
| `DpkgDeps.EmptySound` | src/busybox-1.17.3/archival/dpkg.c:94-96 | the cleared tables meet the invariant of the three tables |
| `DpkgDeps.NameKeeps` | src/busybox-1.17.3/archival/dpkg.c:150-167 | a new name leaves every package and every status reachable |
| `DpkgDeps.PackageKeeps` | src/busybox-1.17.3/archival/dpkg.c:642-650 | a package that is added, or replaces one of the same name, leaves every status reachable |
| `DpkgDeps.StatusKeeps` | src/busybox-1.17.3/archival/dpkg.c:756-758 | a stored status keeps the invariant of the three tables |
| `DpkgDeps.Database.AddName` | src/busybox-1.17.3/archival/dpkg.c:150-167 | interning a name keeps all three tables sound |
| `DpkgDeps.Database.AddPackage` | src/busybox-1.17.3/archival/dpkg.c:642-650 | storing a package keeps all three tables sound, and stores no second package of the same name and an equal version |
| `DpkgDeps.Database.AddStatus` | src/busybox-1.17.3/archival/dpkg.c:756-758 | storing a status keeps all three tables sound |
| `DpkgLaws.AlternativeMeans` | src/busybox-1.17.3/archival/dpkg.c:417-456 | which operator each of <, <<, <=, =, >=, > and >> stands for, for which name and version, and that everything else is illegal |
| `DpkgLaws.NameMeans` | src/busybox-1.17.3/archival/dpkg.c:420-428 | a name on its own asks for any version |
| `DpkgLaws.FieldsApart` | src/busybox-1.17.3/archival/dpkg.c:404-408 | commas separate the fields |
| `DpkgLaws.AlternativesApart` | src/busybox-1.17.3/archival/dpkg.c:408-416 | bars separate alternatives, and a dependency is a choice exactly when it has one |
| `DpkgLaws.MatchMeans` | src/busybox-1.17.3/archival/dpkg.c:297-331 | a package matches an edge exactly when it has the name and its version stands to the version asked for as the operator says |
| `DpkgLaws.ProvidesMeans` | src/busybox-1.17.3/archival/dpkg.c:356-369 | only provides edges provide a name |
| `DpkgLaws.HashMeans` | src/busybox-1.17.3/archival/dpkg.c:130-147 | the hash value character by character, start and decrement in the widths of the source |
| `DpkgLaws.StatusWords` | src/busybox-1.17.3/archival/dpkg.c:653-675 | the first and the third word of a status line |
| `DpkgLaws.Asked` | src/busybox-1.17.3/archival/dpkg.c:931-946 | a dependency asks for a status that starts with the word install, a pre-dependency for one whose third word is installed, other edges for nothing |
| `DpkgLaws.MetMeans` | src/busybox-1.17.3/archival/dpkg.c:1080-1114 | an edge is met exactly by a stored package that matches it or provides its name and is to be installed, or is installed for a pre-dependency |
| `DpkgLaws.ConsistentMeans` | src/busybox-1.17.3/archival/dpkg.c:1047-1061 | exactly the packages to be installed are examined |
| `DpkgDeps.Database.PackageSatisfies` | src/busybox-1.17.3/archival/dpkg.c:931-946 | true exactly when the status of the package says what the dependency asks for |
| `DpkgDeps.Database.SearchForProvides` | src/busybox-1.17.3/archival/dpkg.c:356-369 | the first package after start_at that provides the name, or -1 |
| `DpkgDeps.Database.EvalProviders` | src/busybox-1.17.3/archival/dpkg.c:1101-1114 | true exactly when some provider satisfies the dependency; the search ends |
| `DpkgDeps.Database.EvalEdge` | src/busybox-1.17.3/archival/dpkg.c:1080-1114 | true exactly when the edge is met directly or by a provider |
| `DpkgDeps.PassAlternative` | src/busybox-1.17.3/archival/dpkg.c:1116-1141 | a met alternative skips the rest of its group, and the last unmet one fails it |
| `DpkgDeps.Database.CheckEdges` | src/busybox-1.17.3/archival/dpkg.c:1064-1143 | accepts exactly when every group of the package has an alternative that is met, and never reports corruption |
| `DpkgDeps.Database.CheckDeps` | src/busybox-1.17.3/archival/dpkg.c:1033-1146 | for sound tables: accepts exactly when every dependency group of every wanted package has an alternative that is met |
| `ExprSpec.ShowReads` | src/busybox-1.17.3/coreutils/expr.c:120-146 | a number turned into a string and back is the same number |
| `ExprEval.EvalAt` | src/busybox-1.17.3/coreutils/expr.c:260-481 | every level uses at least one token and stays within the arguments |
| `ExprEval.Evaluator.NextOp` | src/busybox-1.17.3/coreutils/expr.c:368-380 | the operator of a level that comes next, if any |
| `ExprEval.Evaluator.Eval7` | src/busybox-1.17.3/coreutils/expr.c:260-280 | operands and parentheses, against the specification |
| `ExprEval.Evaluator.Eval6` | src/busybox-1.17.3/coreutils/expr.c:284-345 | keywords, against the specification |
| `ExprEval.Evaluator.Eval5` | src/busybox-1.17.3/coreutils/expr.c:350-364 | the : operator, left associative |
| `ExprEval.Evaluator.Eval4` | src/busybox-1.17.3/coreutils/expr.c:368-388 | multiplication, division and remainder, left associative |
| `ExprEval.Evaluator.Eval3` | src/busybox-1.17.3/coreutils/expr.c:392-412 | addition and subtraction, left associative |
| `ExprEval.Evaluator.Eval2` | src/busybox-1.17.3/coreutils/expr.c:416-442 | comparisons, of numbers where both sides are, left associative |
| `ExprEval.Evaluator.Eval1` | src/busybox-1.17.3/coreutils/expr.c:446-462 | the operator for and, left associative |
| `ExprEval.Evaluator.Eval` | src/busybox-1.17.3/coreutils/expr.c:466-481 | the operator for or, left associative; the mutual recursion ends because tokens are used up |
| `ExprEval.ExprMain` | src/busybox-1.17.3/coreutils/expr.c:484-501 | the value, if the evaluation succeeds and uses all arguments |
| `ExprPrint.BinReads` | src/busybox-1.17.3/coreutils/expr.c:368-481 | a printed operator expression is read at its own level, with its left operand grouped first |
| `ExprPrint.PrintReads` | src/busybox-1.17.3/coreutils/expr.c:260-481 | a printed expression evaluates to its value and is used up, if nothing goes on at its level |
| `ExprPrint.PrintThenEval` | src/busybox-1.17.3/coreutils/expr.c:260-501 | for every tree, evaluating its printed tokens uses all of them and gives the value of the tree |
| `ExprLaws.Precedence` | src/busybox-1.17.3/coreutils/expr.c:260-481 | of two operators the one that binds tighter goes first, of two that bind equally the left one: : over * / % over + - over comparisons over & over the or operator |
| `ExprLaws.SumDifferenceProduct` | src/busybox-1.17.3/coreutils/expr.c:190-209 | sums, differences and products of all integers |
| `ExprLaws.Quotient` | src/busybox-1.17.3/coreutils/expr.c:190-209 | quotients are truncated toward zero, remainders have the sign of the dividend |
| `ExprLaws.DivideByZero` | src/busybox-1.17.3/coreutils/expr.c:190-209 | dividing by zero is an error |
| `ExprLaws.SumOfProduct` | src/busybox-1.17.3/coreutils/expr.c:368-412 | a + b * c, a * b + c, a - b - c and a * ( b + c ) for all integers |
| `ExprLaws.NumbersCompare` | src/busybox-1.17.3/coreutils/expr.c:160-186 | the seven comparisons of numbers |
| `ExprLaws.StringsCompare` | src/busybox-1.17.3/coreutils/expr.c:160-186 | other strings compare by the first character that differs |
| `ExprLaws.PrefixCompares` | src/busybox-1.17.3/coreutils/expr.c:160-186 | a string comes before its continuations and equals itself |
| `ExprLaws.Numbers` | src/busybox-1.17.3/coreutils/expr.c:130-146 | blanks, a sign and decimal digits are a number, with its decimal value |
| `ExprLaws.NoNumbers` | src/busybox-1.17.3/coreutils/expr.c:130-146 | a string with another character, or without a digit, is no number |
| `ExprLaws.Logic` | src/busybox-1.17.3/coreutils/expr.c:446-481 | what the operators for or and for and make of strings |
| `ExprLaws.NumberLogic` | src/busybox-1.17.3/coreutils/expr.c:446-481 | what they make of numbers that were computed |
| `ExprLaws.Pattern` | src/busybox-1.17.3/coreutils/expr.c:307-314 | the colon and the keyword match are the same |
| `ExprLaws.Lengths` | src/busybox-1.17.3/coreutils/expr.c:297-306 | the length of a string, and quoting |
| `ExprLaws.IndexMeans` | src/busybox-1.17.3/coreutils/expr.c:316-325 | the first position of any of the characters, or 0 |
| `ExprLaws.SubstrMeans` | src/busybox-1.17.3/coreutils/expr.c:327-345 | the characters from a position on |
| `ExprLaws.SubstrNothing` | src/busybox-1.17.3/coreutils/expr.c:327-345 | positions outside the string, and no length, give the empty string |

## Left out

- Gzip.Zip: the deflated data alone, without the gzip header, CRC-32 and size trailer; a failing read is the flag `failed`. File descriptors, option parsing and time stamps are not modelled.
- gzip's guess in ct_tally when to end a block early: any guess is allowed at multiples of 4096 tokens.
- gzip runs flush_block inside deflate; the model runs the LZ77 pass first and then encodes its blocks, which works on separate state.
- The window is longer by MAX_MATCH bytes of arbitrary content than WINDOW_SIZE, because near the end of the input longest_match may look at bytes past strstart + lookahead; deflate cuts such matches off.
- Which of several legal matches deflate and LZO1X-999 take (max_chain, good_match, nice_match, too_far, min_gain) decides the ratio only; the model takes the same decisions, but no contract states them.
- prev and head are two arrays in the model, halves of one array in the source.
- The branch of flush_block for a seekable output: seekable() is the constant 0.
- Huffman.Builder.BuildTree: when levels were clamped, it is not said how far the repaired lengths are from the cheapest; completeness, length limit and exact cost still are.
- The window dictionary swd_* of lzo1x_9x.c, with good_length and max_chain, which only limit its search: `Lzo999.Compress999` takes one answer for every position, and asks that the matches in it repeat earlier bytes at offsets up to M4_MAX_OFFSET.
- The hash of lzo1x_c.c: `LzoCompress.FindMatch` looks at any two dictionary slots.
- The LZO1X decoder on input that ends inside an instruction reads past its end in the source; the model stops with the input-overrun code there. Run lengths do not wrap at 2^32. Only the byte-wise copy loops are modelled.
- Lzop.UnpackBlock: what an overlapping decode makes of data that overwrites its own unread part is not specified, beyond the length and the checksum of what is accepted; no block that lzop writes is of this kind.
- LzoOptimize.Optimize: asks for a valid stream, because the optimizer itself tests no bounds; the output buffer is taken to lie before the stream in one memory.
- lzop headers, the CRC-32 variant of the checksums, checksums of compressed blocks and split files.
- DpkgTables.Search: asks for a slot that is free or a hit, since the source never returns without one; for the tables, Intern, SearchPackage, StorePackage, SearchStatus and StoreStatus ask for the same. Hash values are computed for characters below 128.
- DpkgDeps.Database.CheckDeps: compares status words as strings where the source compares their indices in the name table, which `DpkgTables.IndexIsName` shows to be the same; the conflict pass is not modelled.
- DpkgEdges.AddSplitDependencies: takes the index of a name from a function, and does not model the 16-bit width of the alternative counter; None stands for giving up and for a line or field without tokens, where the source looks at a null pointer.
- DpkgVersion.VersionCompare: an epoch that overflows atoi is taken modulo 2^32.
- dpkg scripts, file removal, the status file and control file parsing.
- expr's regular expressions are a parameter of the evaluator; integer overflow is not modelled; values are not coerced in place but copied.
