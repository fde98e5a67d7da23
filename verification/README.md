# A verified model of OpenKit's DEFLATE codec and UTF-8 strings

OpenKit compresses its beacon payloads with the zlib it ships (3rdparty/zlib-1.3) and cleans all text with
`core::UTF8String`.  This project models both in Dafny, in the form the C and C++ code has: classes with the fields of
`deflate_state`, `inflate_state` and `UTF8String`, arrays that are updated in place, and the loops of the sources with
their invariants.  Each component is proved against a specification on values, and the specifications are proved
against each other.

## How it is built

* **Specification.** `Bits`, `Canonical`, `Symbols`, `Lz77` and `CodeLengths` define bit strings, canonical prefix
  codes, match lengths and distances, LZ77 expansion and the run-length code of RFC 1951.  `Decoder` is the decoder as
  a small-step machine over bits, with one step for each state of inflate(); `BlockFormat`, `BlockHeader` and
  `BlockStream` define the bits of blocks and prove that the machine reads them back.  `MoreInput` and `NeededInput`
  relate the machine's runs on parts of the input.
* **Entropy coder (trees.c).** `BitWriter`, `GenCodes`, `Heap`, `TreeBuilder`, `MergeTheory`, `Optimality`, `TreeDepths`,
  `LengthLimit`, `MergedTree`, `BitLengths`, `UsedSymbols`, `Forcing`, `BuildTree`, `ShortestCode`, `TreeKinds`, `TreeScan`,
  `TreeSend`, `Tally`, `TreeFacts`, `StaticTrees`, `BlockBody` and `Encoder`.
* **Decoder (inftrees.c, inflate.c, inffast.c, infback.c).** `DecodeTable`, `SortedCodes`, `TableFill`, `TableSize`, `TableBuild`,
  `InflateTable`, `BitReader`, `HistoryWindow`, `Windowed`, `InflateSteps`, `Inflate`, `Chunking`, `Sessions`, `InflateBack` and `SyncSearch`.
* **String matcher (deflate.c).** `Hashing`, `HashChains` and `TokenStory`; `Parsing` says on the input alone what each strategy
  is to emit, `Deflater` is the class, `RunExample` an example.
* **Both together.** `Codec` and `Flushing`.
* **Checksums.** `Adler32`; `Xors`, `PolyRing`, `PolyPowers`, `CrcTheory`, `Crc32` and `CrcValues`.
* **Strings.** `Utf8String` and `Utf8Scalars`.
* **Formats held against the standards by number.** `KnownAnswers` and `RfcTables`.

## Main results

1. Whatever the compressor is given, in whatever pieces, with any flushes, strategy, tuning, memory level, window and room
   for output, a decompressor with at least that window gives it back, however its input and output are cut, and reaches
   the end whenever its calls offer enough (`Codec.Compress`, `Codec.Restore`, `Codec.RoundTrip`).  A sync, full or
   partial flush that leaves room makes all the input read so far available (`Flushing`), and what comes after a full flush
   decodes without what came before (`Codec.RestartDecodes`).
2. inflate() does not depend on how a stream is split over calls if and only if no match in it reaches back beyond
   the window (`Sessions.AgreeExactly`); for all streams that means the full 32K window (`Sessions.AgreeAlways`).
   The promise is false for smaller windows: `Sessions.SplitLoses` makes the calls that lose a stream.
3. build_tree gives a complete code whose merged tree is of minimal cost and, where it is no higher than the limit, is
   what the lengths are read from, so that no prefix codes give the block a shorter body (`ShortestCode.ShortestBody`); the
   repair of clamped lengths restores Kraft equality; opt_len and static_len are the exact bits sent later; and every block
   is the cheapest of the three kinds in bytes, as the source counts them (`Codec.BlocksCheapest`).
4. inflate_table rejects exactly the bad sets; its two-level tables read every bit string as the canonical code does;
   and the table sizes 852 and 592, which the source takes from an exhaustive search, are proved sufficient.
5. inflate_fast ends only in states the slow path reaches.
6. The symbols emitted are, over whole runs of any calls, exactly the greedy parse (deflate_fast), the lazy parse
   (deflate_slow), the parse into runs (deflate_rle) or the literals (deflate_huff) of the input (`Codec.SymbolsParsed`): each
   search tries the near strings with the same key, nearest first and without gaps, and takes the longest, the nearest of
   those; only strings that the source does not insert are left out.  The third byte of a match is never compared and
   always equal; every match is genuine, across window slides.
7. Braided CRC-32 is the bit-at-a-time CRC-32, with x^(2^32) = x; Adler-32 with deferred and shifted reductions is
   the definition; both combine functions give the checksum of the concatenation; and the values are those of the standards
   (`CrcValues.Residue`, `CrcValues.CheckValue`, `Adler32.CheckValue`).
8. validateString repairs to well-shaped text, idempotently, if and only if no character is torn apart by bytes from F8 on;
   and it takes over every text encoded by RFC 3629 as it is (`Utf8Scalars.TakeOver`).
9. Streams written out byte by byte from sections 3.2.3 to 3.2.7 of RFC 1951 decode to their texts, on the machine and by
   one call of inflate() (`KnownAnswers`).

## Where the code and its words differ

* trees.c:658 says that a forced `node` is 0 or 1; it can also be 2, when symbol 1 alone is used.  The model follows the code.
* inffast.c:29 lists `state->bits < 8` among the entry assumptions.  When a call resumes in LEN more bits may be held, but
  never more than the next code needs; `Inflater.Tight` is that weaker fact, and inflate_fast is proved from it.
* adler32_combine_ and the one-byte path of adler32_z subtract BASE a fixed number of times; for values that are no
  checksums this can be too few.  `Fits` and `Exact` say exactly when, and `LargeSums` gives the values.
* zlib.h lets a stream be decoded in any number of calls; for windows below 32K the result then depends on the split
  unless the stream meets the condition of the second main result.
* `validateString` on an empty text resets the count and keeps the bytes, so the count is then wrong unless there were
  none; and a start between the number of characters and the number of bytes makes `substring` return the whole
  string with the count 0.  The contracts of `ValidateString` and `Substring` say exactly when.
* Bytes from F8 to FF pass through `validateString` without effect on its state, so a character completed across them
  is copied from the wrong place.  `Torn` says exactly which texts are affected.

## Conventions

Unsigned values are natural numbers; a shift to the right is `Shr`, a mask of low bits is `Low`, and a shift to the left is
a product with a power of two, cut where the width matters.  `hide` statements keep definitions out of proofs that do not
need them; facts then come from small lemmas named ...Has and ...Is.  The build is the one with 32-bit int and without
FASTEST, UNALIGNED_OK and INFLATE_STRICT.  Nothing is executed.

## Model

| member | source | states |
|---|---|---|
| Codec.RoundTrip | 3rdparty/zlib-1.3/deflate.c:934-1243 | Whatever decoding a finished stream has to give, once no step is left, is the end of the stream with exactly the bytes read by the compressor: for every input, split, flush, strategy, tuning, memory level and window size. |
| Codec.Restore | 3rdparty/zlib-1.3/inflate.c:590-1264 | Decompressing a finished stream with calls of any sizes of input and output, and a window no smaller than the compressor's, never reports bad data, always gives a beginning of the input, gives all of it when it reports the end of the stream, and does report the end if the calls are Enough. |
| Codec.EnoughRoom | 3rdparty/zlib-1.3/zlib.h:402-418 | Calls that are all given what is left of the stream are Enough if their room together is that of the text. |
| Codec.EnoughInput | 3rdparty/zlib-1.3/zlib.h:402-418 | Calls that all have room for the text are Enough if together they are given the stream. |
| Codec.Compress | 3rdparty/zlib-1.3/deflate.c:934-1243 | A whole sequence of calls of deflate(): what has been read and is still to be read is the input given, in order; at the end of the stream all of it has been read, and all of the stream has been handed out; before, only the room was short, or the end was not asked for; the parse took the input to be at its end, and forgot the history, only where a call asked for it. |
| Codec.CompressRestore | 3rdparty/zlib-1.3/deflate.c:934-1243 | Any sequence of calls of deflate() that reaches the end of the stream, and then any of inflate(): the output is a beginning of the input given, and all of it if the calls of inflate() are Enough. |
| Flushing.FlushedDecodes | 3rdparty/zlib-1.3/zlib.h:286-294 | After Z_SYNC_FLUSH or Z_FULL_FLUSH with room left, what has been handed out decodes to all the input read, up to the last bit. |
| Flushing.FlushedRestores | 3rdparty/zlib-1.3/zlib.h:286-294 | Every session of inflate() calls over that output, once it can do no more, has given back all that input and waits for another block. |
| Flushing.PartlyFlushedRestores | 3rdparty/zlib-1.3/zlib.h:296-302 | The same after Z_PARTIAL_FLUSH with room left, although less than a byte of the empty block behind may still be held back. |
| Flushing.FlushedMark | 3rdparty/zlib-1.3/zlib.h:286-294 | After a sync or full flush with room left the output ends with the bytes 00 00 FF FF that inflateSync looks for. |
| Codec.RoundTripSoFar | 3rdparty/zlib-1.3/inflate.c:590-1264 | At every point of a session over a finished stream the output is a beginning of the input and no error has been found. |
| Codec.WindowSuffices | 3rdparty/zlib-1.3/deflate.c:1338-1339 | Nothing in a finished stream refers back beyond the compressor's window, so a decompressor with at least that window loses nothing between calls. |
| Codec.StreamDecodesBack | 3rdparty/zlib-1.3/trees.c:986-1078 | The bits of a finished stream decode to the input, the last bit is the last bit read, and no match on the way reaches back beyond the window. |
| Codec.SymbolsExpand | 3rdparty/zlib-1.3/deflate.c:1786-2114 | Between calls the blocks sent expand to the input up to the start of the open block, and the tallied symbols to the input read less the lookahead and less the one byte that may wait for a better match. |
| Codec.SymbolsParsed | 3rdparty/zlib-1.3/deflate.c:1786-2114 | Between calls and at the end every decision of the strategy is the one it calls for on the input (Lawful), the decisions lead to exactly the symbols in the blocks and those tallied, and at the end they cover the input with nothing waiting. |
| Codec.BlocksCheapest | 3rdparty/zlib-1.3/trees.c:986-1078 | Every block of the stream is the marker of a flush or the cheapest, in bytes, of the raw bytes, the fixed block and the dynamic block built for its symbols. |
| Codec.RestartDecodes | 3rdparty/zlib-1.3/zlib.h:313-317 | The bytes of a finished stream behind the last full flush are a complete stream by themselves and decode, without history, to the input read since then. |
| Canonical.OwnerUnique | 3rdparty/zlib-1.3/trees.c:202-231 | No two symbols own the same point of the code space: the canonical code is prefix free. |
| Canonical.OwnerExists | 3rdparty/zlib-1.3/trees.c:202-231 | Every point below the Kraft sum belongs to a symbol: a complete code leaves no bit pattern unused. |
| Canonical.CodeValIsReversedCode | 3rdparty/zlib-1.3/trees.c:202-231 | The stored code is the code of section 3.2.2 of RFC 1951 (next code of the length plus rank) with its bits reversed, and fits its length. |
| Canonical.MatchIffOwns | 3rdparty/zlib-1.3/inftrees.c:204-274 | A stream begins with the code of s exactly when its first fifteen bits, reversed, are a point that s owns. |
| GenCodes.BiReverse | 3rdparty/zlib-1.3/trees.c:154-161 | The bit-by-bit loop reverses the low bits of a code. |
| GenCodes.NextCodeBound | 3rdparty/zlib-1.3/trees.c:202-231 | The counter of each length never runs out of the codes of that length. |
| GenCodes.GenCodes | 3rdparty/zlib-1.3/trees.c:202-231 | Every symbol with a length gets its canonical code reversed for sending; nothing else changes. |
| Symbols.LengthCodeRange | 3rdparty/zlib-1.3/trees.c:294-373 | Each match length lies in the range of its length code and extra bits. |
| Symbols.DistCodeRange | 3rdparty/zlib-1.3/trees.c:294-373 | Each distance lies in the range of its distance code and extra bits. |
| BitWriter.Writer.SendBits | 3rdparty/zlib-1.3/trees.c:252-285 | Sending appends exactly the low bits of the value to the stream of pending bytes and held bits, whether or not the 16-bit buffer overflows. |
| BitWriter.Writer.BiFlush | 3rdparty/zlib-1.3/trees.c:166-176 | Flushing keeps the stream and leaves at most seven bits held. |
| BitWriter.Writer.BiWindup | 3rdparty/zlib-1.3/trees.c:181-192 | The stream is padded with zero bits to a byte boundary and is then all in the pending bytes. |
| Heap.PqDownHeap | 3rdparty/zlib-1.3/trees.c:507-526 | Sifting down restores the (frequency, depth) order from k on, keeps the elements as a multiset and leaves all other places alone. |
| Heap.TopIsSmallest | 3rdparty/zlib-1.3/trees.c:507-526 | In an ordered heap no node is smaller than the one on top. |
| BuildTree.Builder.PqRemove | 3rdparty/zlib-1.3/trees.c:487-491 | Takes the top out, keeps the order and the other elements. |
| BuildTree.Builder.ForceTwo | 3rdparty/zlib-1.3/trees.c:653-659 | At least two symbols get a code; the totals are lowered by one bit, and by the fixed code's bits, for each forced symbol. |
| BuildTree.Builder.MergeAll | 3rdparty/zlib-1.3/trees.c:671-693 | Merging the two lightest nodes until one is left builds a tree whose total weight no full binary tree over the same frequencies undercuts. |
| Optimality.Exchange | 3rdparty/zlib-1.3/trees.c:671-693 | Exchanging a light leaf with one of the deepest pair never makes a tree more costly. |
| Optimality.LowerBoundStep | 3rdparty/zlib-1.3/trees.c:671-693 | Merging two lightest nodes adds their weight to what every tree must cost. |
| TreeDepths.ClampedKraft | 3rdparty/zlib-1.3/trees.c:552-573 | Clamping depths makes the Kraft sum exceed one by exactly one unit for each internal node at the limit. |
| TreeDepths.FullLengthSpare | 3rdparty/zlib-1.3/trees.c:577-590 | If anything was clamped, there are two more codes of full length than units to remove. |
| TreeDepths.UnclampedCost | 3rdparty/zlib-1.3/trees.c:552-573 | Without clamping, the sum of frequency times length is the total weight of the internal nodes. |
| MergedTree.TrueDepths | 3rdparty/zlib-1.3/trees.c:552-573 | The fathers that merging left determine the true depths of all nodes, clamped or not. |
| MergedTree.ClampedExactly | 3rdparty/zlib-1.3/trees.c:552-573 | A length is clamped exactly if the tree read off the heap is higher than the limit. |
| MergedTree.MergedGives | 3rdparty/zlib-1.3/trees.c:552-573 | The tree read off the heap has the used frequencies as leaves, costs the sum of its internal weights, and gives the lengths where nothing is clamped. |
| LengthLimit.DonorExists | 3rdparty/zlib-1.3/trees.c:583-584 | While the code is over-full and has no more codes than bit patterns of full length, a shorter code to lengthen exists. |
| LengthLimit.FindDonor | 3rdparty/zlib-1.3/trees.c:583-584 | The donor is the longest length in use below the limit. |
| LengthLimit.Repair | 3rdparty/zlib-1.3/trees.c:577-590 | The repair loop ends with Kraft sum exactly one and the same number of codes. |
| BuildTree.Builder.ClampDepths | 3rdparty/zlib-1.3/trees.c:543-573 | The first pass leaves each leaf its clamped depth, the counts of the lengths, the overflow and the two totals. |
| BuildTree.Builder.Reassign | 3rdparty/zlib-1.3/trees.c:592-610 | The second pass gives out exactly the repaired counts and corrects the total by what the changed lengths cost. |
| BuildTree.Builder.GenBitLen | 3rdparty/zlib-1.3/trees.c:538-611 | Lengths within the limit with Kraft sum exactly one; both totals grow by exactly the cost of the symbols; where the merged tree, read off the heap, is no higher than the limit, the lengths are exactly its depths and the cost is its cost; a higher tree has at least max_length + 2 leaves. |
| BuildTree.Builder.BuildTree | 3rdparty/zlib-1.3/trees.c:625-704 | For any frequencies: every used symbol has a length within the limit, the code is complete, codes are canonical and reversed, the totals grow by the exact cost; the merged tree has the frequencies as leaves and costs no more than any full binary tree over them, and if it is no higher than the limit the lengths are its depths. |
| ShortestCode.TreeOf | 3rdparty/zlib-1.3/trees.c:625-704 | For any prefix code, given by lengths with Kraft sum at most one, some full binary tree over the same weights costs no more. |
| ShortestCode.MergedShortest | 3rdparty/zlib-1.3/trees.c:625-704 | Lengths read from a merged tree within the limit cost no more than any prefix code that covers the symbols in use. |
| ShortestCode.ShortestBody | 3rdparty/zlib-1.3/trees.c:1004-1033 | The body of the dynamic block that was built is no longer than with any other two prefix codes for its symbols, unless a merged tree was higher than 15. |
| CodeLengths.RleRoundTrip | 3rdparty/zlib-1.3/trees.c:751-792 | Expanding the run-length symbols by the decoder's rules gives every length vector back, and each repeat has something to repeat. |
| CodeLengths.RleValid | 3rdparty/zlib-1.3/trees.c:751-792 | Every repeat count fits its field of 2, 3 or 7 bits. |
| TreeScan.ScanTree | 3rdparty/zlib-1.3/trees.c:710-745 | Each frequency grows by the number of times the run-length coding of the vector sends that symbol; the guard is set behind the last length. |
| TreeSend.SendTree | 3rdparty/zlib-1.3/trees.c:751-792 | The bits sent are those of the run-length coding that scan_tree counted. |
| TreeSend.SendAllTrees | 3rdparty/zlib-1.3/trees.c:831-853 | The bits sent are the header of section 3.2.7 of RFC 1951 for the three codes; KnownAnswers.OrderOfLengths fixes the order of the code length code lengths by number. |
| Encoder.Encoder.BuildBlTree | 3rdparty/zlib-1.3/trees.c:798-824 | The code of the code lengths is complete, at least four of its lengths are sent and none in use is cut off, and opt_len grows by exactly the bits of the header. |
| Tally.TokenSplit | 3rdparty/zlib-1.3/trees.c:1084-1103 | A literal or match survives being split into the three bytes of the symbol buffer. |
| Tally.BodyCost | 3rdparty/zlib-1.3/trees.c:1026-1035 | The frequencies times lengths and extra bits are exactly the bits of the block body. |
| Encoder.Encoder.TrTally | 3rdparty/zlib-1.3/trees.c:1084-1103 | The symbol is appended to the buffer, the frequencies stay those of the buffer, and the result says whether the buffer is full. |
| Encoder.Encoder.BuildTrees | 3rdparty/zlib-1.3/trees.c:1004-1033 | opt_len is exactly the bits of the dynamic header and body, static_len exactly those of the fixed body; the built block can be sent and read, and its lengths are those of two merged trees over the frequencies of the symbols. |
| BlockBody.CompressBlock | 3rdparty/zlib-1.3/trees.c:898-940 | The bits sent are the codes of the buffered symbols and the end-of-block code, in order; the marks are what was in the pending buffer after each symbol. |
| BlockBody.PutOutUnique | 3rdparty/zlib-1.3/trees.c:252-285 | What has been put out after a given number of bits is determined: whole 16-bit words, with one to sixteen bits held back. |
| BlockBody.FixedTokenBits | 3rdparty/zlib-1.3/deflate.c:457-507 | With the fixed codes a symbol takes at most 31 bits. |
| BlockBody.OverlaySafe | 3rdparty/zlib-1.3/deflate.c:457-507 | In a fixed block that starts with at most seven bits pending, what is in the pending buffer after each symbol ends below the first unread symbol of the overlaid buffer, for every buffer size from 128 on. |
| Encoder.SendStored | 3rdparty/zlib-1.3/trees.c:858-873 | A stored block is type bits, padding, length, complement and the bytes. |
| Encoder.Encoder.TrFlushBlock | 3rdparty/zlib-1.3/trees.c:986-1078 | Exactly one block is sent for the tallied symbols or the raw bytes.  With compression it is the dynamic one exactly if that is shorter in bytes than the fixed one and than the raw bytes with their counts (and the strategy is not Z_FIXED), and the raw bytes exactly if they are no longer than the others; the dynamic block is the one built from the trees returned; the cost is at most 8 * stored_len + 42 bits where the bytes are at hand; after the last block the stream is whole bytes. |
| Encoder.Encoder.TrStoredBlock | 3rdparty/zlib-1.3/trees.c:858-873 | A stored block goes out without touching the tallied symbols. |
| Encoder.Encoder.TrAlign | 3rdparty/zlib-1.3/trees.c:886-893 | An empty fixed block goes out without touching the tallied symbols. |
| StaticTrees.StaticLitInit | 3rdparty/zlib-1.3/trees.c:294-373 | The fixed literal/length codes are the canonical codes of section 3.2.6 of RFC 1951. |
| StaticTrees.StaticDistInit | 3rdparty/zlib-1.3/trees.c:294-373 | The fixed distance codes are the canonical five-bit codes. |
| BlockFormat.FindCode | 3rdparty/zlib-1.3/inflate.c:1036-1052 | A stream that begins with the code of s is decoded as s and nothing else. |
| BlockFormat.TokensDecode | 3rdparty/zlib-1.3/inflate.c:1026-1182 | The LEN to MATCH states read the bits of any symbol sequence as its LZ77 expansion and stop at their end. |
| BlockHeader.PermutedInOrder | 3rdparty/zlib-1.3/inflate.c:917-928 | Undoing the order of sending restores the code length code lengths. |
| BlockHeader.HeaderDecodes | 3rdparty/zlib-1.3/inflate.c:898-1025 | TABLE, LENLENS and CODELENS read a dynamic header back as the two codes that were sent. |
| BlockStream.BlockDecodes | 3rdparty/zlib-1.3/inflate.c:824-1182 | Any stored, fixed or dynamic block is read as what it stands for and the reader stops on its last bit. |
| BlockStream.StreamDecodes | 3rdparty/zlib-1.3/inflate.c:824-1227 | A sequence of blocks decodes to its expansion and decoding ends with it; no match met on the way reaches further back than those of the blocks. |
| Decoder.Confluent | 3rdparty/zlib-1.3/inflate.c:590-1264 | Two runs over the same bits are parts of one run. |
| MoreInput.FindStable | 3rdparty/zlib-1.3/inflate.c:1036-1052 | What a code look-up finds does not change when more input follows. |
| MoreInput.StepExtends | 3rdparty/zlib-1.3/inflate.c:590-1264 | A step taken on the bits at hand is the step taken when whole bytes follow. |
| MoreInput.LeadsExtends | 3rdparty/zlib-1.3/inflate.c:590-1264 | Decoding a first part of the input is the beginning of decoding all of it. |
| NeededInput.LeadsNeeds | 3rdparty/zlib-1.3/inflate.c:484-488 | A run that could not take a step on the first bits uses up all of them: no state holds bits it did not need. |
| InflateTable.InflateTable | 3rdparty/zlib-1.3/inftrees.c:32-299 | -1 exactly for over-subscribed and for disallowed incomplete sets; 0 gives a table that reads every bit string as the symbol whose code it begins with, in at most two steps, or as invalid; 1 never happens for the requests inflate makes; nothing outside the room is touched. |
| InflateTable.BackIncrement | 3rdparty/zlib-1.3/inftrees.c:234-243 | Incrementing the reversed code from its other end is adding one to the code. |
| SortedCodes.NextCodeVal | 3rdparty/zlib-1.3/inftrees.c:234-243 | The incremented reversed code is the code of the next symbol in order. |
| TableFill.Replicate | 3rdparty/zlib-1.3/inftrees.c:219-232 | The entry is written at exactly the indices that end in the code. |
| DecodeTable.NoClash | 3rdparty/zlib-1.3/inftrees.c:32-299 | Two codes never claim the same bits. |
| DecodeTable.PlacedReads | 3rdparty/zlib-1.3/inftrees.c:204-296 | Once its entries are in place, every stream that begins with the code of s is read as s with its length. |
| TableBuild.TableFinished | 3rdparty/zlib-1.3/inftrees.c:204-296 | With every code entered the table reads as the code: no index is left unwritten. |
| TableSize.SubSize | 3rdparty/zlib-1.3/inftrees.c:261-269 | The sub-table is sized so that its codes fill it exactly. |
| TableSize.EnoughLens | 3rdparty/zlib-1.3/inftrees.h:38-48 | With at most 286 symbols and nine root bits no code needs more than 852 entries. |
| TableSize.EnoughDists | 3rdparty/zlib-1.3/inftrees.h:38-48 | With at most 30 symbols and six root bits no code needs more than 592 entries. |
| BitReader.Reader.NeedBits | 3rdparty/zlib-1.3/inflate.c:484-488 | Takes bytes until n bits are held or the input ends; the bits to be read stay the same. |
| BitReader.Reader.DropBits | 3rdparty/zlib-1.3/inflate.c:495-499 | Drops exactly n bits. |
| BitReader.Reader.ByteBits | 3rdparty/zlib-1.3/inflate.c:502-506 | Goes to the next byte boundary. |
| BitReader.Reader.ReturnBytes | 3rdparty/zlib-1.3/inffast.c:289-294 | Giving unused bytes back keeps the position in bits and returns only bytes taken since. |
| BitReader.LookUp | 3rdparty/zlib-1.3/inflate.c:1036-1054 | Finds the entry for the next code taking no byte it does not need; on failure the input is used up and the code is not yet complete. |
| Inflate.Inflater.BuildFixed | 3rdparty/zlib-1.3/inflate.c:252-291 | The tables of the fixed codes read the fixed codes of section 3.2.6 of RFC 1951. |
| Inflate.Inflater.DoType | 3rdparty/zlib-1.3/inflate.c:824-862 | Block type, or the end of the stream: the state is one that the decoder machine reaches from the one before; when the method leaves, the machine must wait too or the output is full. |
| Inflate.Inflater.DoStored | 3rdparty/zlib-1.3/inflate.c:863-880 | The sizes of a stored block: the state is one that the decoder machine reaches from the one before; when the method leaves, the machine must wait too or the output is full. |
| Inflate.Inflater.DoCopy | 3rdparty/zlib-1.3/inflate.c:881-897 | Stored bytes, as many as input and output allow: the state is one that the decoder machine reaches from the one before; when the method leaves, the machine must wait too or the output is full. |
| Inflate.Inflater.DoTable | 3rdparty/zlib-1.3/inflate.c:898-916 | The sizes of a dynamic header: the state is one that the decoder machine reaches from the one before; when the method leaves, the machine must wait too or the output is full. |
| Inflate.Inflater.DoLenLens | 3rdparty/zlib-1.3/inflate.c:917-938 | The code length code: the state is one that the decoder machine reaches from the one before; when the method leaves, the machine must wait too or the output is full. |
| Inflate.Inflater.DoCodeLens | 3rdparty/zlib-1.3/inflate.c:939-1025 | The code lengths with repeats, then both tables: the state is one that the decoder machine reaches from the one before; when the method leaves, the machine must wait too or the output is full. |
| Inflate.Inflater.DoLen | 3rdparty/zlib-1.3/inflate.c:1026-1075 | A literal/length code, by the fast loop where input and room suffice: the state is one that the decoder machine reaches from the one before; when the method leaves, the machine must wait too or the output is full. |
| Inflate.Inflater.DoLenExt | 3rdparty/zlib-1.3/inflate.c:1076-1086 | Extra bits of a length: the state is one that the decoder machine reaches from the one before; when the method leaves, the machine must wait too or the output is full. |
| Inflate.Inflater.DoDist | 3rdparty/zlib-1.3/inflate.c:1087-1114 | A distance code: the state is one that the decoder machine reaches from the one before; when the method leaves, the machine must wait too or the output is full. |
| Inflate.Inflater.DoDistExt | 3rdparty/zlib-1.3/inflate.c:1115-1131 | Extra bits of a distance: the state is one that the decoder machine reaches from the one before; when the method leaves, the machine must wait too or the output is full. |
| Inflate.Inflater.DoMatch | 3rdparty/zlib-1.3/inflate.c:1132-1176 | Part of a match, from the window or this call's output: the state is one that the decoder machine reaches from the one before; when the method leaves, the machine must wait too or the output is full. |
| Inflate.Inflater.DoLit | 3rdparty/zlib-1.3/inflate.c:1177-1182 | A literal byte: the state is one that the decoder machine reaches from the one before; when the method leaves, the machine must wait too or the output is full. |
| Inflate.Inflater.InflateFast | 3rdparty/zlib-1.3/inffast.c:50-304 | With six bytes of input and 258 of room the fast loop ends in a state the slow states reach, within both buffers, with fewer than eight bits held. |
| Inflate.Inflater.Inflate | 3rdparty/zlib-1.3/inflate.c:590-1264 | One call: output and input taken are accounted for, the state is one the machine reaches with this call's input; the call stops only at the end, at an error, with all input taken where the machine waits for more, or with all room used where it needs more; and the result code says which. |
| HistoryWindow.Window.Update | 3rdparty/zlib-1.3/inflate.c:368-412 | However the output was cut into calls, the ring holds the last bytes of all of it. |
| HistoryWindow.Window.GetDictionary | 3rdparty/zlib-1.3/inflate.c:1278-1296 | Returns the last min(wsize, total) bytes of the output, oldest first. |
| HistoryWindow.RingPiece | 3rdparty/zlib-1.3/inflate.c:1136-1154 | Where MATCH finds the byte `back` positions behind the window's end, and how many follow in one piece. |
| InflateSteps.CopyLeads | 3rdparty/zlib-1.3/inflate.c:1132-1176 | All the steps of a match are the byte-by-byte copy, overlap included. |
| Windowed.NearLeads | 3rdparty/zlib-1.3/inflate.c:1133-1145 | While no match reaches further back than the window, a call behaves as the machine that remembers all output. |
| Chunking.Continue | 3rdparty/zlib-1.3/inflate.c:590-1264 | A call on any part of the stream with any room stays on the one run of the whole stream, and stops only where it must. |
| Chunking.OutputIsPrefix | 3rdparty/zlib-1.3/inflate.c:590-1264 | Whatever the split, the output so far is a beginning of what a finished session gives. |
| Chunking.SplitsAgree | 3rdparty/zlib-1.3/inflate.c:590-1264 | Two finished sessions over a stream agree on output, verdict and the bit where decoding stopped. |
| Chunking.FullNearby | 3rdparty/zlib-1.3/inflate.c:1133-1145 | A window of 32768 bytes suffices for every stream. |
| Sessions.MakeCall | 3rdparty/zlib-1.3/inflate.c:590-1264 | Every call of inflate(), for any window and any input, is a call in the sense of sessions: it runs the machine with what the window holds, and stops at the end, at an error, or where it needs more and all input is taken or all room used. |
| Sessions.AgreeExactly | 3rdparty/zlib-1.3/inflate.c:1133-1145 | All sessions of calls that come to an end on a stream agree on the output and on the verdict, if and only if no match that decoding the stream meets reaches back beyond the window. |
| Sessions.FarExactly | 3rdparty/zlib-1.3/inflate.c:1133-1145 | A stream meets that condition exactly if decoding it never comes to a match with its start in the output but not in the window. |
| Sessions.AgreeAlways | 3rdparty/zlib-1.3/inflate.c:1133-1145 | Sessions agree on every stream if and only if the window has its full 32K. |
| Sessions.SplitLoses | 3rdparty/zlib-1.3/inflate.c:1133-1145 | For every complete stream with such a match, two calls of inflate(), the first with just the room before the match, end in Z_DATA_ERROR, while one call on the same input with enough room gives all of the text and Z_STREAM_END. |
| Sessions.SmallWindowLoses | 3rdparty/zlib-1.3/inflate.c:1133-1145 | For every window smaller than 32K there is such a stream. |
| Sessions.RoomBeforeInput | 3rdparty/zlib-1.3/inflate.c:590-1264 | Input and room must come together: room without input and then the whole input without room put out nothing, for every stream. |
| Sessions.Stops | 3rdparty/zlib-1.3/inflate.c:590-1264 | Decoding comes to an end on any input, valid or not. |
| InflateBack.OutputWindow.Match | 3rdparty/zlib-1.3/infback.c:573-591 | Too far exactly if the distance exceeds what the window holds; otherwise the byte-by-byte copy, across the wrap and over itself, or a beginning of it if writing out fails. |
| InflateBack.OutputWindow.Room | 3rdparty/zlib-1.3/infback.c:202-213 | Writing out a full window changes nothing in the history. |
| InflateBack.OutputWindow.Stored | 3rdparty/zlib-1.3/infback.c:327-340 | Stored bytes are appended to the history, as many as there is room for. |
| InflateBack.OutputWindow.Play | 3rdparty/zlib-1.3/infback.c:469-591 | Any sequence of literals and matches that succeeds yields its LZ77 expansion. |
| InflateBack.OutputWindow.Leave | 3rdparty/zlib-1.3/infback.c:610-616 | At the end exactly the history has been written out. |
| SyncSearch.Search | 3rdparty/zlib-1.3/inflate.c:1355-1373 | Across calls, the count is that of the longest beginning of 00 00 FF FF that ends the bytes seen, and the search stops right behind the first full one. |
| SyncSearch.FoundExactly | 3rdparty/zlib-1.3/inflate.c:1355-1373 | The search reports the pattern if and only if it occurs. |
| KnownAnswers.StoredAnswer | 3rdparty/zlib-1.3/inflate.c:863-897 | The bytes of a stored block, written out, decode to its text. |
| KnownAnswers.FixedAnswer | 3rdparty/zlib-1.3/inflate.c:1026-1182 | The bytes of a fixed block with literals and matches, written out, decode to its text. |
| KnownAnswers.DynamicAnswer | 3rdparty/zlib-1.3/inflate.c:898-1025 | The bytes of two dynamic blocks that send all nineteen code length code lengths, no two symbols with the same in both, decode to their text. |
| KnownAnswers.OrderOfLengths | 3rdparty/zlib-1.3/inflate.c:607-608 | The lengths go to the symbols 16, 17, 18, 0, 8, 7, 9, ... in this order, for any lengths and any number of them. |
| KnownAnswers.InflateAnswers | 3rdparty/zlib-1.3/inflate.c:590-1264 | One call of inflate() on each of these streams gives the text and Z_STREAM_END. |
| RfcTables.LengthTable | 3rdparty/zlib-1.3/inftrees.c:56-61 | The base lengths and extra bits of section 3.2.5 of RFC 1951, number by number. |
| RfcTables.DistanceTable | 3rdparty/zlib-1.3/inftrees.c:62-69 | The base distances and extra bits, number by number. |
| RfcTables.RepeatTable | 3rdparty/zlib-1.3/trees.c:773-788 | Extra bits and repeat counts of the code length symbols 16, 17 and 18. |
| Hashing.RollingHash | 3rdparty/zlib-1.3/deflate.c:141 | After three bytes nothing is left of the key before. |
| Hashing.ThirdByte | 3rdparty/zlib-1.3/deflate.c:1429-1436 | With equal keys and equal first two bytes the third bytes are equal, for every hash size in use. |
| HashChains.PrimedNext | 3rdparty/zlib-1.3/deflate.c:155-158 | The rolled key is the key of the string, and ready for the next. |
| HashChains.ChainsInsert | 3rdparty/zlib-1.3/deflate.c:155-163 | Insertion keeps the chain invariant, although prev is indexed modulo the window size: each chain holds the strings inserted with its key, without gaps, the last one first. |
| HashChains.ChainsSlide | 3rdparty/zlib-1.3/deflate.c:187-209 | Sliding keeps that invariant, completeness included, and drops just what leaves the window. |
| HashChains.ChainFollowed | 3rdparty/zlib-1.3/deflate.c:1467-1469 | Following prev from a string near enough leads to the last earlier string with the same key, or to the end. |
| Deflater.Deflater.SlideHash | 3rdparty/zlib-1.3/deflate.c:187-209 | Every entry is lowered by the window size, or zeroed. |
| Deflater.Deflater.SlideWindow | 3rdparty/zlib-1.3/deflate.c:277-288 | After the slide the window holds the same stretch of the input, chains and positions included. |
| Deflater.Deflater.FillWindow | 3rdparty/zlib-1.3/deflate.c:251-368 | No input is lost or doubled, the chains stay sound, the bytes the search may look at have been written, and the lookahead is short only when the input is used up. |
| Deflater.Deflater.InsertString | 3rdparty/zlib-1.3/deflate.c:155-163 | The string becomes the head of its chain and links to the former head; nothing else in the tables changes. |
| Deflater.Deflater.ThreeAlike | 3rdparty/zlib-1.3/deflate.c:1424-1436 | Along a chain, two equal bytes make three: the comparison left out is implied. |
| Deflater.Deflater.MatchLength | 3rdparty/zlib-1.3/deflate.c:1441-1452 | The unrolled comparison finds how far two strings agree, up to 258. |
| Deflater.Deflater.LongestMatch | 3rdparty/zlib-1.3/deflate.c:1331-1472 | The strings tried are the hash chain from its head on, down to the limit, at most max_chain of them; no string tried agrees with the one at strstart for longer, and the match is the first of them that agrees for so long; the search ends only where the chain does, after max_chain strings, or at a match of nice_length; the result is cut to the lookahead. |
| Deflater.PassedOrSeen | 3rdparty/zlib-1.3/deflate.c:1331-1472 | A string with the key of the one at hand has been tried, or comes behind those tried: a search leaves out nothing on its way. |
| Deflater.Deflater.SearchSought | 3rdparty/zlib-1.3/deflate.c:1331-1472 | Held against the input: the strings tried are the near strings with the same key, nearest first and without gaps but for those excused; the length found is the greatest among them, at the nearest that has it; and the search goes on until the chain, the number of tries or the need for more is at its end, and no longer. |
| Deflater.Deflater.SlowFind | 3rdparty/zlib-1.3/deflate.c:1917-1941 | The string is inserted and searched for exactly if its chain has a near head and the waiting match is shorter than max_lazy_match; the result is that of the search, dropped to 2 if it is at most 5 under Z_FILTERED, or 3 and too far back. |
| Deflater.Deflater.SlowEmit | 3rdparty/zlib-1.3/deflate.c:1946-1990 | The waiting match goes out if and only if it has three bytes or more and the new one is not longer; otherwise the waiting byte goes out, if there is one, and the new match waits. |
| Deflater.Deflater.FastFind | 3rdparty/zlib-1.3/deflate.c:1812-1823 | The string is inserted and searched for exactly if its chain has a near head; the result is that of the search. |
| Deflater.Deflater.FindRun | 3rdparty/zlib-1.3/deflate.c:2031-2048 | A run is found exactly if the byte before is repeated three times, and is as long as it goes on, up to 258 bytes and the lookahead. |
| Parsing.TurnMore | 3rdparty/zlib-1.3/deflate.c:1885-2005 | More input, and later flushes, do not make a decision other than the one called for. |
| Parsing.ParsedTurn | 3rdparty/zlib-1.3/deflate.c:1885-2005 | A decision that is called for extends the parse by what it leads to. |
| RunExample.SixAlike | 3rdparty/zlib-1.3/deflate.c:1885-2005 | With lazy evaluation every lawful parse of six equal bytes emits two literals and one match of four bytes with the byte before. |
| Deflater.Deflater.RunLength | 3rdparty/zlib-1.3/deflate.c:2033-2048 | The unrolled comparison finds how far the byte before goes on, up to 258. |
| Deflater.Deflater.TallyDist | 3rdparty/zlib-1.3/deflate.c:1826-1827 | A match that repeats the input extends what the symbols stand for by its length. |
| Deflater.Deflater.FlushBlockOnly | 3rdparty/zlib-1.3/deflate.c:1564-1573 | The tallied symbols become one block for exactly the bytes since the block start, also when these have slid out of the window; only when the buffer is full or the input is at its end. |
| Deflater.Deflater.DeflateFast | 3rdparty/zlib-1.3/deflate.c:1786-1877 | From any point between steps: all input is read or kept, the symbols emitted are those of the parse that the strategy calls for on the input, blocks and symbols stand for the input up to the position reached, and a finished stream stands for all of it. |
| Deflater.Deflater.DeflateSlow | 3rdparty/zlib-1.3/deflate.c:1885-2005 | From any point between steps: all input is read or kept, the symbols emitted are those of the parse that the strategy calls for on the input, blocks and symbols stand for the input up to the position reached, and a finished stream stands for all of it. |
| Deflater.Deflater.DeflateRle | 3rdparty/zlib-1.3/deflate.c:2013-2078 | From any point between steps: all input is read or kept, the symbols emitted are those of the parse that the strategy calls for on the input, blocks and symbols stand for the input up to the position reached, and a finished stream stands for all of it. |
| Deflater.Deflater.DeflateHuff | 3rdparty/zlib-1.3/deflate.c:2084-2114 | From any point between steps: all input is read or kept, the symbols emitted are those of the parse that the strategy calls for on the input, blocks and symbols stand for the input up to the position reached, and a finished stream stands for all of it. |
| Deflater.Deflater.FlushPending | 3rdparty/zlib-1.3/deflate.c:903-921 | The stream stays as it is and is handed out as far as there is room: all of it, unless the room is used up. |
| Deflater.Deflater.Deflate | 3rdparty/zlib-1.3/deflate.c:934-1243 | One call with some input, flush mode and room: input is taken in order behind what was kept; Z_OK means that the room is used up, or that all input has been taken and the end was not asked for; under Z_FINISH the call ends the stream or uses up its room; Z_STREAM_END means a finished stream that has been handed out whole; a sync, full or partial flush with room left is complete; the two errors come exactly in the stated cases and take nothing. |
| Deflater.FlushRanks | 3rdparty/zlib-1.3/deflate.c:133 | The kinds of flush rank in their order, by the numbers of RANK. |
| TokenStory.ToldMatch | 3rdparty/zlib-1.3/deflate.c:1331-1472 | A genuine match keeps the symbols true to the input. |
| TokenStory.ToldFlush | 3rdparty/zlib-1.3/deflate.c:1564-1573 | A block sent for the symbols keeps the story of the stream. |
| TokenStory.SentStream | 3rdparty/zlib-1.3/trees.c:986-1078 | The bits sent block by block are those of one deflate stream. |
| TokenStory.RestIsStream | 3rdparty/zlib-1.3/zlib.h:313-317 | What a finished stream holds behind a whole number of bytes of blocks is a finished stream by itself. |
| Adler32.NoOverflow | 3rdparty/zlib-1.3/adler32.c:10-14 | NMAX bytes cannot overflow 32 bits even from sums of 65535. |
| Adler32.LargestBlock | 3rdparty/zlib-1.3/adler32.c:10-14 | NMAX is the largest n with 255 n (n + 1) / 2 + (n + 1) (BASE - 1) below 2^32. |
| Adler32.AdlerIsSums | 3rdparty/zlib-1.3/adler32.c:61-125 | Reducing at every byte and reducing at the end give the same. |
| Adler32.Chop | 3rdparty/zlib-1.3/adler32.c:25-30 | One step of CHOP keeps the value modulo BASE and bounds it. |
| Adler32.Mod28 | 3rdparty/zlib-1.3/adler32.c:31-35 | MOD28 is % 65521 on values below 2^28. |
| Adler32.Mod | 3rdparty/zlib-1.3/adler32.c:36-40 | MOD is % 65521 on all 32-bit values. |
| Adler32.Mod63 | 3rdparty/zlib-1.3/adler32.c:41-53 | MOD63 is % 65521 on non-negative 63-bit lengths. |
| Adler32.AdlerZ | 3rdparty/zlib-1.3/adler32.c:61-125 | For every 32-bit starting value and every length the result is the per-byte definition started with reduced sums, except, exactly, for a single byte whose second sum is 2 * BASE or more; for checksums of texts it always is. |
| Adler32.Combine | 3rdparty/zlib-1.3/adler32.c:133-155 | For any two 32-bit values the result is what the definition demands if and only if the subtractions at the end suffice, which they always do for checksums of texts; a negative length gives 0xffffffff. |
| Adler32.LargeSums | 3rdparty/zlib-1.3/adler32.c:61-155 | Starting values for which the two exceptions occur. |
| Adler32.ReducedFits | 3rdparty/zlib-1.3/adler32.c:133-155 | Checksums with both sums reduced always combine rightly. |
| Adler32.CombineIsConcatenation | 3rdparty/zlib-1.3/adler32.c:133-155 | Combining the checksums of two texts gives the checksum of their concatenation. |
| Adler32.CheckValue | 3rdparty/zlib-1.3/adler32.c:61-125 | The checksum of "Wikipedia" is 0x11E60398. |
| PolyRing.Modulus | 3rdparty/zlib-1.3/crc32.c:147-148 | x^32 is the polynomial constant: the words are polynomials modulo p(x). |
| PolyRing.MulComm | 3rdparty/zlib-1.3/crc32.c:155-170 | The product is commutative. |
| PolyRing.MulAssoc | 3rdparty/zlib-1.3/crc32.c:155-170 | The product is associative. |
| PolyRing.MulPower | 3rdparty/zlib-1.3/crc32.c:155-170 | Multiplying by x^e is shifting e times. |
| PolyRing.PowerAdd | 3rdparty/zlib-1.3/crc32.c:176-187 | x^e x^f is x^(e+f). |
| PolyPowers.Frobenius | 3rdparty/zlib-1.3/crc32.c:182 | x^(2^32) is x. |
| PolyPowers.PowersCycle | 3rdparty/zlib-1.3/crc32.c:182 | So the table of 32 powers may be used modulo 32. |
| Crc32.MultModP | 3rdparty/zlib-1.3/crc32.c:155-170 | For every non-zero a the loop ends and yields the product modulo p(x). |
| Crc32.Tables.X2nModP | 3rdparty/zlib-1.3/crc32.c:176-187 | Yields x^(n 2^k), never zero, for every n and k. |
| Crc32.Tables.constructor | 3rdparty/zlib-1.3/crc32.c:310-334 | Builds the byte table, the powers x^(2^j) and the braid tables, for any number of braids and both word sizes. |
| Crc32.Tables.MakeBraids | 3rdparty/zlib-1.3/crc32.c:528-540 | Entry i of braid table k is byte i shifted by the bits from place k to the end of a block. |
| Crc32.Tables.CrcWord | 3rdparty/zlib-1.3/crc32.c:676-681 | The W table look-ups shift the word by its bits. |
| CrcTheory.CrcIsShift | 3rdparty/zlib-1.3/crc32.c:709-857 | The bit-at-a-time CRC of a text is one multiplication of the register and the text taken as a number. |
| CrcTheory.BraidStep | 3rdparty/zlib-1.3/crc32.c:779-828 | A block keeps the braids in step with the bit-at-a-time register. |
| CrcTheory.BlockGather | 3rdparty/zlib-1.3/crc32.c:837-857 | After the last block the register is what the braids and words make together. |
| Crc32.Tables.LookUp | 3rdparty/zlib-1.3/crc32.c:779-828 | The look-ups shift each braid's word on by a block. |
| Crc32.Tables.LastBlock | 3rdparty/zlib-1.3/crc32.c:837-857 | Combining the braids one after the other gives the register after the block. |
| Crc32.Tables.CrcZ | 3rdparty/zlib-1.3/crc32.c:694-1010 | For every buffer, address and starting value the result is the bit-at-a-time CRC-32. |
| CrcTheory.CrcCombines | 3rdparty/zlib-1.3/crc32.c:1021-1026 | The CRC of a concatenation is the first CRC times x^(8 length of B) plus the second. |
| Crc32.Tables.Combine64 | 3rdparty/zlib-1.3/crc32.c:1021-1026 | combine(crc(A), crc(B), length of B) is crc(A ++ B), for all A and B. |
| CrcValues.NotIs | 3rdparty/zlib-1.3/crc32.c:704 | The inversion before and after is the complement of 32 bits. |
| CrcValues.CheckValue | 3rdparty/zlib-1.3/crc32.c:694-1010 | The CRC of "123456789" is 0xCBF43926. |
| CrcValues.CheckTables | 3rdparty/zlib-1.3/crc32.c:694-1010 | The tables give that value too. |
| CrcValues.Residue | 3rdparty/zlib-1.3/crc32.c:694-1010 | For every text, the CRC of the text followed by its CRC, lowest byte first, is 0x2144DF1C. |
| Utf8String.RepairedShape | src/core/UTF8String.cxx:148-235 | The repaired text is made of well-shaped characters if and only if no character is torn apart by bytes from F8 on, and the count is then that of its characters. |
| Utf8String.PlainUntorn | src/core/UTF8String.cxx:179-231 | Without bytes F8 to FF nothing is torn apart. |
| Utf8String.RepairedAgain | src/core/UTF8String.cxx:148-235 | Repairing twice is repairing once, if and only if no character is torn apart. |
| Utf8String.TornExample | src/core/UTF8String.cxx:179-231 | The text E2 82 F8 AC is torn: its repair is not well-shaped and is repaired to something else again. |
| Utf8String.RepairedText | src/core/UTF8String.cxx:237-251 | A repaired text contains no terminator, so it is read back whole. |
| Utf8String.WellShapedText | src/core/UTF8String.cxx:148-235 | A well-shaped text without NUL and without the pair C0 80 is taken over unchanged. |
| Utf8String.TextLength | src/core/UTF8String.cxx:157-162 | The text ends at the first NUL or C0 80. |
| Utf8String.UTF8String.Repair | src/core/UTF8String.cxx:172-234 | The automaton yields the repair as defined on the text, and counts its pieces. |
| Utf8String.UTF8String.ValidateString | src/core/UTF8String.cxx:148-235 | The new bytes and count; and exactly when the object stays in order: an empty text leaves the bytes of a string that had some while its count is reset. |
| Utf8String.UTF8String.Concatenate | src/core/UTF8String.cxx:268-275 | Bytes and count are those of both, characters too. |
| Utf8String.UTF8String.ConcatenateText | src/core/UTF8String.cxx:277-281 | The same for a text, repaired; in order exactly if no character of the text is torn apart. |
| Utf8String.UTF8String.Substring | src/core/UTF8String.cxx:323-365 | Exactly the characters from start, clipped to the end; in order if and only if start is below the count or nothing is asked for or found. |
| Utf8String.SubstringExample | src/core/UTF8String.cxx:323-365 | A string of one two-byte character, cut from 1 on, keeps its bytes and has the count 0. |
| Utf8String.EmptyTextExample | src/core/UTF8String.cxx:148-160 | Setting a string of one two-byte character to the empty text keeps its bytes with the count 0. |
| Utf8Scalars.EncodeShape | src/core/UTF8String.cxx:130-143 | The encodings of section 3 of RFC 3629, by ranges and shifts, are single characters of the width that their first byte announces. |
| Utf8Scalars.ReplacementCharacter | src/core/UTF8String.cxx:150 | The replacement is the encoding of U+FFFD. |
| Utf8Scalars.EncodedText | src/core/UTF8String.cxx:148-235 | The encodings of any scalar values but 0 are well-shaped, one character each, and end only where they end. |
| Utf8Scalars.TakeOver | src/core/UTF8String.cxx:148-235 | validateString on the encodings of any scalar values but 0, with NUL behind, leaves exactly those bytes, counts the values and has the encodings as characters. |

## Left out

* detect_data_type, deflateParams with its match counter, deflateTune, deflatePrime, inflatePrime, deflateCopy, inflateCopy and the dictionary setters.
* The table that gives each level its tuning: the tuning is a parameter, and every claim holds for all of them.
* deflate_stored (level 0): the raw-copy strategy with its direct copies; stored blocks chosen by _tr_flush_block are modelled.
* The gzip and zlib wrappers: streams are raw (wrap == 0), so CHECK and LENGTH fall away and the checksums are modelled apart.
* Allocation, version and null-pointer checks, and validateString with a null pointer.
* inflate's flush modes other than Z_NO_FLUSH, the back and was fields, and inflateSync's spill of the bit buffer.
* pending_buf is a growing sequence of which a beginning has been handed out, not a buffer that is reused once it is empty; what Z_BLOCK makes available is not stated.
* The place of the symbol buffer inside the pending buffer: `OverlaySafe` proves that sharing is safe for fixed blocks; for dynamic blocks the source argues with an average only.
* inflateBack's decoding states, which repeat those of inflate, and its calls of inflate_fast; its window is modelled.
* The prev index is `% wsize` instead of a mask, and match_start, which wraps around as unsigned when the window slides, is an integer that may become negative.
* inflate_fast works on the fields of the object, not on local copies; window and history are the same.
* The literal tables of trees.h, inffixed.h and crc32.h: the model computes them, as the code does that made the files.
* Big-endian braids, ARM instructions and the once() protection of the CRC tables; z_word_t is a natural number.
* `int` overflow in validateString on texts of 2^31 bytes and more; getIndexOf, split and the comparison operators of UTF8String.
- BlockBody.OverlaySafe: is about fixed blocks only.
