# Compression, checksum and text kernels: a verified model

This project models the code under `deps/` of the repository whose correctness
everything above it takes for granted, and proves what that code is for.

- **DEFLATE, compressing** (`deps/zlib/deflate.c`, `trees.c`): the sliding window
  with its hash chains, lazy and greedy matching, tree construction with its
  length limit, the choice between stored, fixed and dynamic blocks, and the
  16-bit output buffer.
- **DEFLATE, decompressing** (`inflate.c`, `inftrees.c`, `inffast.c`): the
  resumable state machine, its decoding tables, the circular window and the fast
  inner loop.
- **Checksums** (`crc32.c`, `adler32.c`), **UTF-8** (`deps/utf8cpp`) and the
  block generators of **SFMT** (`deps/SFMT/SFMT.c`).

Code that changes state step by step is imperative here too: `BitSink`, `Coder`,
`DeflateStream`, `InflateStream` and `Generator` are classes, trees and tables
are arrays that are overwritten in place. Each method is proved against a
specification on values; the theorems are about those.

## How the parts fit together

`InflateSpec` is the reference: an abstract decoder that takes one step at a time
over a bit string (section 3 of RFC 1951). `InflateProps` shows that its steps
are deterministic and do not look ahead, so that input may be cut anywhere.
`Inflate` and `InflateFast` refine it call by call. `BlockFormat` and
`BlockStream` prove that what the compressor writes drives the abstract decoder
back to the tokens, `DeflateHistory`, `Emission` and `Deflate` that the tokens
always stand for the input, and `RoundTrip` puts both ends together;
`FlushedStream` does it for streams that are not finished, at every flush.

`HashChain` proves what a search along the chains finds and that the chains hold
all strings that were inserted; `Matching` is the rule by which deflate_slow and
deflate_fast make tokens of what was found. A session keeps a trace of these
decisions, so that all its tokens come from searches that were made.

What both ends take from one definition here is pinned number by number:
`FormatTables` has the tables of RFC 1951, `KnownStream` one stream byte by byte,
`CheckValues` known checksums.

`HuffmanTree`, `BitLengths`, `LengthLimit`, `Reassign`, `BuildTree` and `GenCodes`
are `build_tree()` in the order in which it works; `Optimal` and `CheapestCode`
prove Huffman's theorem for it, `SoleCode` that a cheapest code without a rival is
found even where lengths could be cut off, and `BlockTrees` what that means for a
block. `FastEntry`, `FullTable` and parts of `Overlay` and `BlockCoder` lead the
model into the three states of the next section.

## Where the code does not do what it is for

The model keeps the code as it is. Each of these has an input that fails, and a
condition under which the code does what it should.

- **The overlay.** Pending output, `d_buf` and `l_buf` are one allocation
  (`deflate.c:228-231`, `301-313`): the distances begin at byte `lit_bufsize`, the
  lengths at `3 * lit_bufsize`, the output at 0. `compress_block()` reads entry
  `lx` while earlier entries are being written over, and only a debug `Assert`
  (`trees.c:1096-1097`) looks at it. `Coder` keeps tokens and output in one array
  with those offsets; a `ush` is modelled with its low byte first.
  `TokenSender.CompressBlock` sends the whole block if at every entry the bytes
  written end before it (`Intact`), and the model stops at the first entry where
  they do not. That entry may by chance still read as it was stored; when another
  token is read there and has codes, the stream is not that of the block any more,
  whatever follows (`Overlay.Misread`). `Overlay.FixedOvertaken`, `FixedMisread` and
  `BlockCoder.SendFarMatches` are an input for which this happens and the wrong
  token that is then read: the fixed codes, `lit_bufsize` 16384, and 16383 matches
  of length 258 and distance 20000. With the fixed codes it cannot happen as
  long as distances are at most 256, and can as soon as they are not, whatever the
  size of the buffer (`Overlay.ReachExact`), so a session with these codes and the
  smallest window is never lost (`Deflate.DeflateStream.Deflate`). With any codes an average of at most 16
  bits a token over every prefix excludes it (`Overlay.AverageIntact`), so a stream
  that is lost has a block that is denser than that (`RoundTrip.LostIsDense`).
- **Space for distance tables.** `inflate_table()` refuses a code whose table
  needs `ENOUGH_DISTS` entries or more (`inftrees.c:211-213`, `280-282`), although
  that many exist. `TableLimit.FullTableRefused` is a complete code for 30
  distances that needs exactly 592, and the block coder does send it:
  `FullTable.SendFullTable` gives a coder 32767 tokens for which this code is the
  only cheapest one, and the dynamic block that it writes, intact, is refused.
  Blocks that the decoder has no room for are therefore an explicit case of every
  round trip (`Acceptable`), in both directions.
- **The entry assumption of `inflate_fast()`** that fewer than eight bits are held
  (`inffast.c:46`, `309`) is false when a call resumes within a symbol.
  `FastEntry.WholeByteHeld` is such a decoder: after the seven bytes of a block
  header, five literals of nine bits and eight bits of a sixth it waits in state
  LEN with eight bits. Eight bits or more are held on entry if and only if it is
  the first round of a call, with 6 bytes of input and 258 of output space, and
  the call before it ended in state LEN with that many
  (`Inflate.InflateStream.Inflate`). The loop is proved under the condition that
  does hold, that the bits held are not yet a symbol; under it the bytes given back
  still never reach before the input of the call.

## Model

| member | source | states |
|---|---|---|
| RoundTrip.Lossless | deps/zlib/deflate.c:663-971 | All input that a finished compressor was ever given, over any calls, flushes, tunings and window slides, is what a decompressor recovers from what was handed out, unless one of its blocks is refused for table space; it finishes if and only if none is |
| FlushedStream.AllRecovered | deps/zlib/zlib.h:280-296 | When a sync, full or partial flush has come to its end, a decompressor that is offered what has been handed out, in whatever calls, has as output all input so far, and waits for more, unless a block is refused for table space |
| FlushedStream.EndsOnByte | deps/zlib/deflate.c:922-926 | After a sync or full flush the bytes handed out are the blocks sent, to the last bit, with nothing left in the bit buffer, and end with 00 00 FF FF |
| FlushedStream.RestartRecovered | deps/zlib/zlib.h:307-311 | No block after a full flush refers to output before it, and what has been handed out since, offered to a decompressor on its own, gives back the input since then |
| RoundTrip.LostIsDense | deps/zlib/trees.c:1096-1097 | If the output overtakes the tokens of a block, some prefix of them takes more than 16 bits a token, or what precedes them more than 8 * lit_bufsize bits |
| RoundTrip.SplitsAgree | deps/zlib/inflate.c:523-591 | Two decoders offered the same input agree in output and outcome, however their calls divided input and output space |
| RoundTrip.Decompresses | deps/zlib/inflate.c:604-1251 | A decoder given a finished stream ends with the meaning of its blocks if and only if it accepts all trees, and otherwise fails with a prefix of it |
| RoundTrip.InflateOfDeflate | deps/zlib/trees.c:907-1002 | The same for all that a block coder has written |
| BlockStream.StreamDecodes | deps/zlib/inflate.c:825-1172 | A stream of acceptable blocks, followed by whatever, drives the decoder to the end with the meaning of the blocks as output, and to no bit beyond |
| BlockStream.StreamRefused | deps/zlib/inflate.c:999-1015 | A stream is refused at the first block whose trees do not fit, after the output of all blocks before it |
| BlockFormat.StaticRoundTrip | deps/zlib/inflate.c:842-851 | A block with the fixed codes decodes to the expansion of its tokens |
| BlockFormat.DynamicRoundTrip | deps/zlib/inflate.c:896-1017 | A block with its own codes decodes to the expansion of its tokens if both codes are accepted and fit, and is refused with no output otherwise |
| BlockFormat.StoredRoundTrip | deps/zlib/inflate.c:863-895 | A stored block decodes to its data from any position within a byte |
| InflateProps.RunsAgree | deps/zlib/inflate.c:523-591 | Of two runs of the decoder, one of which has seen more input, the output of one is a prefix of the output of the other, and a run that has finished or failed is final |
| InflateHistory.PrefixInput | deps/zlib/inflate.c:604-1251 | The same for two decoders between calls |
| InflateHistory.SameInput | deps/zlib/inflate.c:604-1251 | Two decoders that took the same bytes and cannot go on are in the same state |
| Inflate.InflateStream.Inflate | deps/zlib/inflate.c:604-1251 | One call is a run of the abstract decoder over the bytes it consumed; it only stops when done, failed, out of input that could be used, or out of space for output that is due, and when done it has taken no byte after the end of the stream; the return code says which; inflate_fast() is entered with eight bits or more exactly in the first round of a call that resumes in LEN with that many |
| KnownStream.InflateStreamBytes | deps/zlib/inflate.c:604-1251 | One call on 35 literal bytes, which are a stored block, a block with the fixed codes and one with its own codes, sent with the repeat symbols 16, 17 and 18, and matches with extra bits in the last two, returns Z_STREAM_END with 56 literal bytes of output and takes all of them |
| KnownStream.CodedBlocks | deps/zlib/trees.c:836-859 | The bits that the compressor writes for the last two of these blocks are exactly the bytes from the tenth on |
| KnownStream.StreamEnds | deps/zlib/inflate.c:604-1251 | However far a decoder has come with these bytes, if it can do no more it has finished with this output and has taken all of them |
| FormatTables.OrderTable | deps/zlib/inflate.c:624-625 | The order in which the lengths of the code length code come, as 19 numbers; deflate sends them in the same order (trees.c:71-72) |
| FormatTables.LengthTable | deps/zlib/inftrees.c:60-65 | Base and extra bits of every length symbol, as numbers, on both sides |
| FormatTables.DistTable | deps/zlib/inftrees.c:66-73 | Base and extra bits of every distance symbol, as numbers, on both sides |
| FormatTables.FixedTable | deps/zlib/trees.c:290-306 | Length and code of every symbol of the fixed codes, as numbers |
| FastEntry.CutShortEnds | deps/zlib/inffast.c:40-46 | However far a decoder has come with the seven bytes of the example, if it can do no more it is between symbols with eight bits that are not yet one |
| FastEntry.WholeByteHeld | deps/zlib/inffast.c:40-46 | One call of inflate() leads to a state from which the next enters inflate_fast() with eight bits |
| Inflate.InflateStream.UpdateWindow | deps/zlib/inflate.c:378-426 | After it the window holds the last output bytes, with those of this call |
| Window.RecallsWritten | deps/zlib/inflate.c:409-424 | Writing fewer bytes than the window has, in one or two pieces, keeps it the latest output in circular order |
| Window.RecallsLast | deps/zlib/inflate.c:404-408 | A whole window of new bytes replaces everything |
| Window.InOnePiece | deps/zlib/inflate.c:1147-1154 | Where the bytes of a match that begins in the window lie in one piece |
| Window.BeyondWindow | deps/zlib/inflate.c:1125-1132 | A distance of at most 32 KB is further back than the window holds exactly if it is further back than all output |
| Window.CopyMatch | deps/zlib/inflate.c:1159-1165 | Copying byte by byte from window or output, overlaps included, appends what a match in the unbounded history appends |
| InflateFast.FastLoop | deps/zlib/inffast.c:67-324 | From a state between symbols with 6 bytes of input and 258 of output space, the fast loop makes steps of the abstract decoder only, makes progress, stays within its buffers and returns the unused bytes |
| InflateFast.FastCopy | deps/zlib/inffast.c:182-281 | All ways to copy a match, from the window, across its end, or from the output, append what the match means; a distance too far back fails |
| SymbolReader.ReadEntry | deps/zlib/inflate.c:1030-1048 | Looking up with one or two indices while pulling bytes finds the entry of the next symbol, or runs out of input exactly if the abstract decoder is stuck |
| InflateState.NeedBits | deps/zlib/inflate.c:488-502 | Pulling bytes moves them from the input to the bits held and changes nothing else; it only fails when the input is used up and the abstract decoder is stuck |
| InflateState.FixedTables | deps/zlib/inflate.c:260-299 | The tables of the fixed codes are built and decode them |
| InflateTable.InflateTable | deps/zlib/inftrees.c:32-305 | It returns -1 exactly for length sets that are over-subscribed or incomplete in a way that is not allowed and 1 exactly for those that need too much space; otherwise the table gives for every bit string the symbol whose code it begins with and drops that code, or the invalid marker; nothing outside the space used is written |
| InflateTable.CheckSet | deps/zlib/inftrees.c:130-138 | The room left is exactly the unused code space, and is negative exactly if the set is over-subscribed |
| InflateTable.SortSymbols | deps/zlib/inftrees.c:140-147 | The used symbols come in the order of their codes |
| TableTheory.BlockStart | deps/zlib/inftrees.c:259-289 | The first code with a new root prefix begins exactly where the strings with that prefix do, so one second-level table holds all of them |
| TableTheory.FillHits | deps/zlib/inftrees.c:232-239 | After replication every string that begins with the code of the symbol finds its entry |
| TableTheory.IncrementNext | deps/zlib/inftrees.c:241-250 | The backwards increment gives, reversed, the place where the interval of the code ends and the next one begins |
| TableLimit.FullTableRefused | deps/zlib/inftrees.c:278-282 | A complete code for 30 distances needs exactly ENOUGH_DISTS entries and is refused |
| FullTable.FullTableSent | deps/zlib/trees.c:907-1002 | For a block of 32767 explicit tokens, no more than fit, whose input is no longer in the window, the compressor chooses this code, sends a dynamic block with no token overtaken, and the block is refused |
| FullTable.SendFullTable | deps/zlib/trees.c:907-1053 | A new coder that is given these tokens ends a stream that no decoder accepts |
| Lookup.EndsDecode | deps/zlib/inflate.c:1030-1046 | Compared with the bits at hand, the length of an entry says whether the symbol is all there; if it is, the entry is that symbol, or the invalid marker if there is none |
| HuffmanCode.PrefixFree | deps/zlib/trees.c:569-607 | No canonical code, as the lengths define them, is the beginning of another |
| HuffmanCode.CompleteDecodes | deps/zlib/trees.c:569-607 | Every string of 15 bits begins with a canonical code, as the lengths define them, if the lengths are complete |
| GenCodes.GenCodes | deps/zlib/trees.c:575-607 | Every symbol with a length gets the reversed canonical code, which is the value at which inflate_table() enters it; other symbols keep what they have |
| GenCodes.BiReverse | deps/zlib/trees.c:1152-1162 | The low bits in the opposite order |
| GenCodes.StoredPrefixFree | deps/zlib/trees.c:569-607 | Of the codes that gen_codes() has stored, as the bits they are sent as, none is the beginning of another |
| GenCodes.StoredDecodes | deps/zlib/trees.c:569-607 | If the lengths are complete every string of 15 bits begins with a stored code |
| PriorityHeap.PqDownHeap | deps/zlib/trees.c:453-476 | Heap order is restored from a place on, with the same nodes |
| PriorityHeap.PqRemove | deps/zlib/trees.c:433-438 | A node that is smallest by frequency and depth is taken out and the rest is a heap |
| HuffmanTree.InitHeap | deps/zlib/trees.c:628-640 | The queue holds exactly the symbols that occur |
| HuffmanTree.ForceTwo | deps/zlib/trees.c:642-655 | At least two symbols are in the queue; what forced ones will cost is taken off in advance |
| HuffmanTree.JoinTwo | deps/zlib/trees.c:662-689 | The two least nodes get a father in the queue; queue and sorted nodes stay apart; frequencies in the queue keep their sum, so that no 16-bit frequency wraps |
| HuffmanTree.GrowTree | deps/zlib/trees.c:657-691 | The nodes form one binary tree over the used symbols, fathers before sons, in order of decreasing frequency, every father as frequent as its sons together, the root as all symbols |
| BitLengths.Levels | deps/zlib/trees.c:508-528 | In one pass over the nodes every node gets its level, cut off at the limit, and leaves, overflow and cost are counted |
| LengthLimit.LeavesWeight | deps/zlib/trees.c:512-529 | Levels cut off at the limit take room for exactly half the overflow too much, and at least as many leaves are at the limit |
| LengthLimit.MoveRemovesOne | deps/zlib/trees.c:535-544 | One pass of the overflow loop removes exactly one unit of excess and keeps the number of codes |
| LengthLimit.Shorten | deps/zlib/trees.c:534-545 | The loop ends, never below one bit, with a complete set of the same number of codes |
| Reassign.HandOut | deps/zlib/trees.c:547-564 | The leaves get lengths with exactly the counts, least frequent longest, and the cost is corrected by the difference |
| Optimal.NoneCheaper | deps/zlib/trees.c:657-691 | Huffman's theorem: lengths that were not cut off cost no more than any others that satisfy the inequality of Kraft |
| Optimal.CutIsHeavy | deps/zlib/trees.c:512-516 | A length is only cut off at max if all frequencies together are at least the Fibonacci number max + 3 |
| BuildTree.BuildTree | deps/zlib/trees.c:617-699 | The lengths are a complete code within the limit for exactly the symbols that occur or were forced, with their codes; both costs grow by exactly what the symbols that occur will take; without overflow no prefix code is cheaper, and overflow takes frequencies of at least a Fibonacci number together and cannot be if a code within the limit is the only cheapest one |
| SoleCode.SoleUncut | deps/zlib/trees.c:508-516 | If one assignment of lengths within the limit is cheaper than all others, no level of the tree is cut off |
| CheapestCode.SoleIsFound | deps/zlib/trees.c:617-699 | build_tree() then finds it, for any number of tokens |
| DyadicCode.DyadicSole | deps/zlib/trees.c:657-691 | Frequencies 2^(15-l), one of which may be one less, have the lengths l as their only cheapest code |
| CheapestCode.OneCheapest | deps/zlib/trees.c:617-699 | Such lengths cost no more than any lengths that a block header could describe |
| BlockSender.ScanTree | deps/zlib/trees.c:705-744 | The frequencies counted are those of the symbols that send_tree() emits |
| BlockSender.SendTree | deps/zlib/trees.c:750-795 | The bits sent are those of the run-coded lengths |
| CodeLengths.TreeItemsAdd | deps/zlib/trees.c:750-795 | Expanding the run-coded lengths of a tree after any others gives back its lengths |
| BlockTrees.BuildBlTree | deps/zlib/trees.c:801-829 | The code length code covers all that is sent, and the cost grows by exactly the bits of both trees |
| BlockTrees.SendAllTrees | deps/zlib/trees.c:836-860 | The header of a dynamic block is what the decoder reads |
| BlockTrees.MakeTrees | deps/zlib/trees.c:925-951 | opt_len and static_len are exactly the bits of the block each way; up to 2580 tokens, or whenever no length was cut off, no pair of prefix codes makes the body shorter; for any number of tokens a code within the limit that is cheaper than all others is the one built |
| BlockTrees.BothCheapest | deps/zlib/trees.c:617-699 | Two cheapest codes make a shortest body among all that a block could use |
| StaticTables.TrStaticInit | deps/zlib/trees.c:234-314 | The tables for lengths and distances and the fixed codes are those of the format |
| Tokens.LengthCoding | deps/zlib/trees.c:255-269 | Code, extra bits and base of a length agree with the constants of the decoder |
| Tokens.DistCoding | deps/zlib/trees.c:271-287 | The same for distances |
| BitWriter.BitSink.SendBits | deps/zlib/trees.c:188-225 | The bits are appended to the stream; the buffer is written in order and nothing beyond |
| BitWriter.BitSink.BiFlush | deps/zlib/trees.c:1167-1179 | Whole bytes leave the bit buffer, the stream stays the same |
| BitWriter.BitSink.BiWindup | deps/zlib/trees.c:1184-1197 | The stream is padded with zero bits to a whole byte |
| BitWriter.BitSink.CopyBlock | deps/zlib/trees.c:1203-1224 | Length, complement and data are appended on a byte boundary |
| BitWriter.BitSink.TakePending | deps/zlib/deflate.c:640-660 | The oldest pending bytes are handed out, as many as there is room for |
| TokenSender.CompressBlock | deps/zlib/trees.c:1058-1103 | Reading tokens from the array that it writes to, it sends the body of the block if the output has reached no entry before that is read, and says so; otherwise it has sent the tokens before the first entry overtaken |
| TokenSender.TalliedLoad | deps/zlib/deflate.h:219-226 | The frequencies of a block add up to its tokens and one end of block |
| TokenSender.TokensCost | deps/zlib/trees.c:525-526 | Tokens take exactly as many bits as their frequencies say |
| Overlay.AverageIntact | deps/zlib/deflate.c:228-231 | At most 16 bits a token on average over every prefix keeps the output behind the tokens, even after 8 * lit_bufsize bits of header |
| Overlay.ShortTokensIntact | deps/zlib/deflate.c:228-231 | Tokens of at most 24 bits each are safe after a block header |
| Overlay.ReachExact | deps/zlib/trees.c:1058-1103 | With the fixed codes all blocks with distances up to some reach are safe, whatever the size of the buffer, if and only if the reach is at most 256 |
| Overlay.TokenPrefixFree | deps/zlib/trees.c:1058-1103 | No bit string begins with the bits of two different tokens |
| Overlay.Misread | deps/zlib/trees.c:1069-1070 | Once another token is sent in place of one of the block, no continuation makes the stream that of the block |
| Overlay.FixedOvertaken | deps/zlib/trees.c:1058-1103 | A full block of far matches with the fixed codes overtakes itself |
| Overlay.FixedMisread | deps/zlib/trees.c:1069-1070 | The entry that is then read is not the token that was stored |
| BlockCoder.SendFarMatches | deps/zlib/trees.c:907-1103 | A coder that is given such matches overtakes its tokens |
| BlockCoder.CountToken | deps/zlib/trees.c:1019-1033 | The frequencies stay those of the tokens; a 16-bit counter does not wrap |
| BlockCoder.Coder.Tally | deps/zlib/trees.c:1008-1053 | The token is stored and counted; the block is full one entry before the buffer is |
| BlockCoder.Coder.FlushBlock | deps/zlib/trees.c:907-1002 | One block for all tokens: stored, fixed or dynamic, whichever is shortest by exact count; it is appended to the stream, within the buffer, if its tokens are not overtaken, which cannot happen with the fixed codes and distances up to 256 |
| BlockCoder.Coder.StoredBlockOnly | deps/zlib/trees.c:865-877 | A stored block is appended to the stream |
| BlockCoder.Coder.Align | deps/zlib/trees.c:892-901 | An empty static block is appended and whole bytes leave |
| HashChain.LongestMatch | deps/zlib/deflate.c:1146-1287 | The strings looked at are those reached over the chain above the distance limit, as many as the chain length allows, a quarter of it if there is a good match; a result longer than prev_length is a true match of that length with one of them within MAX_DIST and the lookahead, although its third byte is never compared; and unless the result is nice enough or all the lookahead, none of them has a longer match than it or prev_length |
| HashChain.VisitedAreNearest | deps/zlib/deflate.c:1146-1287 | The strings reached over the chain are exactly the nearest ones inserted under the key, above the limit and up to the chain length |
| HashChain.LongestOfAll | deps/zlib/deflate.c:1146-1287 | So if the chain is not cut short, no inserted string in reach has a longer match than the search found |
| HashChain.InsertKeeps | deps/zlib/deflate.c:181-189 | Overwriting one link keeps every head and every link within reach the latest earlier string inserted under its key |
| HashChain.SlideKeeps | deps/zlib/deflate.c:1417-1449 | So does sliding the window |
| DeflateHistory.InsertString | deps/zlib/deflate.c:181-189 | The string becomes the head of its chain and leads to the head before it, which is returned; nothing else in the table changes |
| DeflateHistory.TableSlides | deps/zlib/deflate.c:1411-1449 | After a slide the window is the later half and all links are those of strings still in it |
| Deflate.DeflateStream.FillWindow | deps/zlib/deflate.c:1388-1545 | Input read goes into the window and its strings into the table, over any number of slides; positions keep their meaning; enough lookahead or no input is left |
| Deflate.DeflateStream.FindSlow | deps/zlib/deflate.c:1752-1792 | The string is inserted; its chain is searched unless the match kept from the previous string is long enough or there is no string to look at, with the result of LongestMatch, and a short match that is filtered or too far is dropped; whatever the tuning, the match kept and the new one are matches of the input at their places |
| Deflate.DeflateStream.SlowStep | deps/zlib/deflate.c:1752-1827 | One round emits the match of the previous string if the one found now is not longer, and steps over it, inserting its strings; otherwise it emits the byte held back, if there is one, and keeps what was found |
| Deflate.DeflateStream.FindFast | deps/zlib/deflate.c:1648-1663 | The string is inserted and its chain searched whenever there is one in reach, with the result of LongestMatch |
| Deflate.DeflateStream.FastStep | deps/zlib/deflate.c:1648-1711 | One round emits the match that was found, or else the current byte |
| Matching.NothingMissed | deps/zlib/deflate.c:1752-1792 | A decision of the trace for which a search is made misses no inserted string in reach with a longer match, if the chain is not cut short and nothing nice enough was found |
| Matching.TraceLazy | deps/zlib/deflate.c:1752-1827 | A round of deflate_slow, with what it found, extends the trace: all tokens of the session, in blocks or waiting, are those that its decisions make |
| Matching.TraceGreedy | deps/zlib/deflate.c:1648-1711 | The same for deflate_fast |
| Deflate.DeflateStream.DeflateSlow | deps/zlib/deflate.c:1728-1851 | At every loop head blocks and tokens stand for the input up to strstart, but for the byte held back, and are those that lazy matching makes of one searched decision for each string in its turn; the state returned says whether a block or the stream has been ended and what has been handed out |
| Deflate.DeflateStream.DeflateFast | deps/zlib/deflate.c:1626-1720 | The same for greedy matching, nothing held back |
| Deflate.DeflateStream.FlushBlockOnly | deps/zlib/deflate.c:1536-1545 | The block stands for the input since the last one, read from the window if that still holds it |
| Deflate.DeflateStream.FlushPending | deps/zlib/deflate.c:640-660 | What is not pending has been handed out |
| Deflate.DeflateStream.Deflate | deps/zlib/deflate.c:663-971 | One call takes a prefix of the input and hands out what there is room for; Z_STREAM_ERROR and Z_BUF_ERROR are returned exactly when the code does; after Z_OK with room left all input is used, and if a marker was asked for, all of it has been sent and handed out with that marker; the session goes on, with its trace, unless a block was overtaken, and always with the fixed codes and a window with distances up to 256 |
| Deflate.DeflateStream.Mark | deps/zlib/deflate.c:922-937 | The marker of a flush is the last block: an empty static block with less than a byte of it held back, or an empty stored one with nothing held back; a full flush forgets all strings, and the stream can start again there |
| Emission.MatchEmitted | deps/zlib/deflate.c:929-930 | A match within reach keeps blocks and tokens standing for the input, from the beginning and, on their own, from the last full flush on |
| Crc32.MakePoly | deps/zlib/crc32.c:94-108 | The exponents of the polynomial, one bit each, make the pattern of section 8 of RFC 1952 |
| Crc32.MakeCrcTable | deps/zlib/crc32.c:90-130 | With this pattern table k holds the remainder of a byte followed by k zero bytes, and the other four the same in the other byte order |
| Crc32.Crc32 | deps/zlib/crc32.c:204-244 | Whatever the machine, the checksum is that of the definition, and 0 for the null buffer |
| Crc32.Crc32Little | deps/zlib/crc32.c:247-278 | For any alignment and starting register, word by word is bit by bit (section 8 of RFC 1952) |
| Crc32.Crc32Big | deps/zlib/crc32.c:287-320 | The same in big-endian order |
| Crc32.Crc32ByByte | deps/zlib/crc32.c:204-244 | The same byte by byte |
| Crc32.MatrixTimes | deps/zlib/crc32.c:327-341 | Applying an operator for n zero bits is n zero bits |
| Crc32.MatrixSquare | deps/zlib/crc32.c:344-352 | Squaring doubles the number of zero bits |
| Crc32.CrcConcat | deps/zlib/crc32.c:355-408 | The checksum of a concatenation, from those of its parts |
| Crc32.Combine | deps/zlib/crc32.c:355-408 | crc1 after len2 zero bytes, with crc2 added; for no length it is crc1 |
| Crc32.CombineParts | deps/zlib/crc32.c:355-408 | Combining the checksums of A and B gives that of A followed by B |
| CheckValues.Residue | deps/zlib/crc32.c:227-235 | Any data followed by its own checksum, low byte first, has the checksum 0x2144DF1C (section 8 of RFC 1952) |
| CheckValues.CrcCheck | deps/zlib/crc32.c:204-244 | The figures from 1 to 9 have the checksum 0xCBF43926 |
| Adler32.NMaxExact | deps/zlib/adler32.c:14-18 | NMAX is the largest number of bytes whose sums fit in 32 bits |
| Adler32.Adler32 | deps/zlib/adler32.c:65-133 | For any starting value, whose sums count modulo BASE, every path, in 32-bit arithmetic with the modulo put off, is the definition (section 2.2 of RFC 1950), except that one byte after a value with a sum of BASE or more leaves the second sum BASE too large exactly if it reaches 2 * BASE; for the null buffer it is 1 |
| Adler32.Mod63 | deps/zlib/adler32.c:45-61 | Shifting and adding is the remainder |
| Adler32.CombineParts | deps/zlib/adler32.c:136-162 | Combining the checksums of A and B gives that of A followed by B |
| CheckValues.AdlerRepeated | deps/zlib/adler32.c:65-133 | The checksum of n equal bytes in closed form, modulo 65521 (section 2.2 of RFC 1950) |
| CheckValues.AdlerCheck | deps/zlib/adler32.c:65-133 | The nine letters of Wikipedia have the checksum 0x11E60398 |
| Utf8.DecodesExactly | deps/utf8cpp/utf8/core.h:116-292 | Decoding succeeds exactly on text that begins with the encoding of a valid code point (section 4 of RFC 3629), and gives it |
| Utf8.Grammar | deps/utf8cpp/utf8/core.h:116-292 | Decoding succeeds exactly on what begins with a UTF8-char of the grammar in section 4 of RFC 3629, byte range by byte range |
| Utf8.Shortest | deps/utf8cpp/utf8/core.h:132-150 | No sequence of lead and trail bytes for a code point is shorter than its encoding |
| Utf8.Lengths | deps/utf8cpp/utf8/core.h:132-150 | The encoding has at most one, two or three bytes exactly up to 7F, 7FF and FFFF |
| Utf8.KnownErrors | deps/utf8cpp/utf8/core.h:239-292 | The verdict on one sequence for each kind of error |
| Utf8.ValidateNext | deps/utf8cpp/utf8/core.h:239-292 | Verdict, position and code point, which stay as they were on failure |
| Utf8.FindInvalid | deps/utf8cpp/utf8/core.h:307-317 | The end of the longest valid beginning |
| Utf8.IsValid | deps/utf8cpp/utf8/core.h:319-323 | True exactly for sequences of encodings |
| Utf8Checked.Append | deps/utf8cpp/utf8/checked.h:72-96 | A valid code point is encoded, an invalid one thrown |
| Utf8Checked.Next | deps/utf8cpp/utf8/checked.h:138-156 | The exception says what is wrong, case by case, and the position stays |
| Utf8Checked.Prior | deps/utf8cpp/utf8/checked.h:164-177 | It goes back to the nearest byte that is not a trail byte and decodes there, within the bytes passed; what it throws says what is wrong there |
| Utf8Checked.NextThenPrior | deps/utf8cpp/utf8/checked.h:138-177 | prior() undoes next() |
| Utf8Checked.ReplaceInvalid | deps/utf8cpp/utf8/checked.h:98-129 | Valid code points are kept and each invalid sequence becomes the replacement; it throws exactly if the replacement is invalid and needed |
| Utf8Checked.RepairedIsText | deps/utf8cpp/utf8/checked.h:98-129 | Repaired text is valid |
| Utf8Checked.RepairedText | deps/utf8cpp/utf8/checked.h:98-129 | Valid text is not changed |
| Utf8Checked.KnownRepair | deps/utf8cpp/utf8/checked.h:98-129 | A text with each kind of error becomes the text with one mark for each |
| Utf8Checked.Utf8to16 | deps/utf8cpp/utf8/checked.h:231-244 | Valid UTF-8, and nothing else, becomes the UTF-16 of the same code points; what it throws is what decoding throws at the first place that is not valid |
| Utf8Checked.Utf16to8 | deps/utf8cpp/utf8/checked.h:204-229 | Valid UTF-16, and nothing else, becomes the UTF-8 of the same code points; the unit it throws is the one at or after the first surrogate without its pair |
| Utf8Checked.Through16 | deps/utf8cpp/utf8/checked.h:204-244 | UTF-8 to UTF-16 and back is the identity on valid text |
| Utf8Checked.Through8 | deps/utf8cpp/utf8/checked.h:204-244 | UTF-16 to UTF-8 and back is the identity on valid text |
| Utf8Checked.PairOf | deps/utf8cpp/utf8/checked.h:204-244 | A surrogate pair is the form of exactly the code point whose 20 bits it holds (section 2.2 of RFC 2781) |
| Sfmt.GenRandAll | deps/SFMT/SFMT.c:245-263 | The state becomes the next N terms of its recurrence |
| Sfmt.GenRandArray | deps/SFMT/SFMT.c:95-129 | For every size of at least N the array is the next terms of the recurrence and the state the last N of them |
| Sfmt.TermShifts | deps/SFMT/SFMT.c:95-129 | The recurrence started again from any later stretch continues it |
| Sfmt.BlocksAreTerms | deps/SFMT/SFMT.c:245-263 | The states after repeated calls, one after another, are the recurrence without gaps |
| Sfmt.Generator.GenRandUint32 | deps/SFMT/SFMT.h:139-149 | Number k is number k of the stream of the seed: the part k % 4, lowest first, of word k / 4 |
| Sfmt.Generator.FillArray32 | deps/SFMT/SFMT.c:293-300 | The array holds the next words of the recurrence, which are the same numbers as from that many single calls |

## Left out

- `deflate_stored`, `deflate_rle` and `deflate_huff` (`deflate.c:1562-1967`): the model has deflate_slow and deflate_fast, so the level is not 0 and the strategy is default, filtered or fixed.
- zlib and gzip headers and trailers on both sides, dictionaries, `deflateParams`, `deflatePrime`, `inflatePrime`, `inflateSync` and the copy functions: streams are raw.
- The `gz*` file layer and `infback.c`; `src/`, which is sockets, files and threads.
- Windows smaller than 32 KB in inflate, Z_BLOCK and Z_TREES there, and the states LEN_ and COPY_ that only these need.
- Other builds: FASTEST, UNALIGNED_OK, ASMV, SSE2, NEON, AltiVec, big-endian SFMT, DYNAMIC_CRC_TABLE races.
- TokenSender.CompressBlock: stops at the first entry that has been overtaken; what the code goes on to send is not modelled, since the distance read there may lie beyond the end of `_dist_code` and the output may outgrow the buffer. Distances are stored with the low byte first.
- Deflate.DeflateStream.Deflate: the caller's buffers are sequences, so input and output that alias are not captured; nothing is said of calls after a block has been overtaken.
- Inflate.InflateStream.Inflate: the caller's buffers are sequences; code lengths are a sequence that is replaced, and the two tables are copies of the parts of the code array that inflate_table() wrote. After an error the bit accumulator is whatever it is.
- Adler32.Adler32: a null buffer with a length of one, from which the code would read, is left out.
- HuffmanTree.JoinTwo: the depth of a node, one byte that only breaks ties, is kept modulo 256.
- CodeLengths.TreeItemsAdd: the guard that scan_tree() writes after the last length is a value beside the lengths.
- FullTable.FullTableSent, Overlay.FixedOvertaken: the failing blocks are lists of tokens; input for which deflate_slow or deflate_fast collects them is not given.
- `detect_data_type` and the seeding of SFMT, which no other result depends on.
