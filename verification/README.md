# Verified model of mlxd

mlxd is an inference server written in C11. This project models the parts of it that are fast or
concurrent forms of something simple, and proves that they agree with the simple form, for every
input, every merge table, every interleaving, every way of cutting the work up.

**Tokenizer.** `BpeMerge` is `bpe_merge` as written: an array of nodes that forms a doubly linked
list, a binary heap of candidates, version stamps in place of deletion. It is proved equal to the
naive procedure of `BpeNaive` (merge the lowest-ranked adjacent pair, leftmost on ties, until none
is ranked). `Regex` gives the semantics of backtracking regular expressions with a negative
lookahead, as the list of all match ends in the order in which a matcher tries them; `Pretokenize`
proves the hand-written matchers equal to the first match of the seven-branch expression.
`ByteLevel`, `SentencePiece`, `WordPiece`, `SpecialScan` and `EncodeAlloc` carry this to the
encoders and decoders and to the round trips between them, `Detok` to the streaming detokenizer,
`ProbeTable` and `Bits` to the hash table under all of them, `ScratchReserve` to the buffers, `Utf8`
to the coder of RFC 3629.

**Engine and stream protocol.** `StreamRing` and the list in `Mailbox` are verified as data
structures. `StreamProtocol`, `Mailbox` and `GenRequest` are state machines with one step per
critical section or atomic access, a sleeping thread being woken by signals only, and with a log of
what a request sends to its connection; a run is any sequence of events, so a statement about `Exec(es)`
for all `es` is a statement about every interleaving.

**Cache, attention, decoding.** `KvCache` is one layer of the cache. `Attention` proves that chunked
prefill, trimmed views and KV-shared layers compute the position-by-position definition; `DecodeLoop`
that the pipelined loop on top of them emits what the naive loop over that definition does; `ExpertDispatch` that sorting the expert
indices does not matter; `Sampler` what the three filters keep.

How the C is read:

- Bytes are integers below 256; masks and shifts are written as division and remainder. Where 32-bit
  arithmetic can wrap it is written out (`ProbeTable.AboveThreshold`, `ScratchReserve`).
- Arrays that the code fills in place are arrays here, objects are classes, loops are loops. Outcomes
  of allocations that matter are parameters.
- The Unicode classes are abstract predicates; the one fact used is that numbers are apart from
  letters, marks and whitespace (`Pretokenize.NumbersApart`).
- The network is an uninterpreted function of what a layer reads; floats are reals. The causal mode of
  the attention kernel is taken to be aligned to the last position.

Where the code and a promise about it differ, the code is modelled, an input is given, and the exact
condition is proved:

- "Every generate ends with exactly one DONE" is false on the failing paths of `src/engine/engine.c`:
  a cancelled stream that meets `generate_fail` without shutdown gets no terminal
  (`StreamProtocol.ErrorPathWithoutTerminal`). It holds of a path if and only if `generate_fail` makes
  none of its pushes (`TerminalIff`, `RealTerminalIff`), and in a run if and only if no refused push
  gave up (`TerminalUnlessGivenUp`).
- Shutdown can strand the engine thread in a push if the ring is smaller than the pushes before the
  first poll: capacity 1 suffices for the stub path, 2 is needed on error paths
  (`StreamProtocol.StuckIff`, `StuckExists`, `PathCapacities`).
- The comment above `match_contraction` writes `(?i:...)`; the code folds ASCII letters only. The two
  differ at an apostrophe, U+017F and another letter or mark (`Pretokenize.FoldingDiffers`), and only
  there (`FoldedMatchIff`).
- Streaming equals batch decoding exactly for tokens that decode without NUL bytes, since
  `detok_feed` takes a C string (`Detok.StreamEqualsBatch`, `NulIsLost`); for the same reason
  `ByteLevel.ReturnedString` (`NulIsCut`) and `SentencePiece.RoundTrip` have NUL-freeness in their
  exact condition, the latter also U+2581 (`MarkComesBackAsSpace`).
- `engine_destroy` destroys a mutex that a poster between its two checks still takes; it is left alone
  if and only if nobody is there when it returns (`Mailbox.MutexLeftAloneIff`).
- The composed sampler filters keep the most likely token exactly when min_p <= 1, which parameter
  validation guarantees (`Sampler.MaxSurvives`).

## Model

| member | source | states |
|---|---|---|
| Utf8.DecodeCodepoint | src/model/tok_unicode.c:88-128 | the bit-mask decoder returns exactly the code point and length of the grammar of section 4 of RFC 3629 at that position; over-long forms, surrogates, values above 10FFFF and truncated or stray bytes give U+FFFD with length 1, and a position at or past the end gives (0, 0) |
| Utf8.DecodeEncode | src/model/tok_unicode.c:88-156 | the encoding of every scalar value, whatever bytes follow it, decodes to that value over exactly its length, and is well-formed |
| Utf8.EncodeDecode | src/model/tok_unicode.c:88-156 | re-encoding what was decoded from a well-formed sequence gives back its bytes |
| Utf8.CodepointSuffix | src/model/tok_unicode.c:88-128 | decoding at i + k of a text is decoding at k of its suffix from i |
| Utf8.CodepointAlone | src/model/tok_unicode.c:88-128 | a unit cut out of a text decodes alone to the same code point, over its whole length |
| Utf8.FlattenChars | src/model/tokenizer.c:762-777 | the characters a text is cut into concatenate back to it, ill-formed bytes included |
| Utf8.BuildBytesToUnicode | src/model/tok_unicode.c:205-222 | the two arrays that are filled are the GPT-2 byte table and its inverse: printable bytes map to themselves, the n-th other byte to 256 + n, and no other code point maps back |
| Utf8.TableIs | src/model/tok_unicode.c:205-222 | the k-th byte that is not printable stands for U+0100 + k; the space for U+0120, the newline for U+010A, the soft hyphen for U+0143 |
| Utf8.InRanges | src/model/tok_unicode.c:68-80 | binary search over sorted disjoint ranges finds a code point if and only if some range contains it |
| BpeNaive.ScanFindsBest | src/model/tokenizer.c:678-684 | the naive scan returns the ranked pair that no other pair beats by rank or, on equal rank, by position |
| BpeNaive.NaiveStep | src/model/tokenizer.c:783-803 | merging the best pair first does not change what the naive procedure ends with |
| BpeNaive.LowerRankFirst | src/model/tokenizer.c:678-684 | the cheaper of two overlapping pairs is merged, also where it stands to the right |
| BpeNaive.LeftmostFirst | src/model/tokenizer.c:678-684 | of two overlapping pairs of equal rank the left one is merged |
| BpeNaive.NaiveKeepsText | src/model/tokenizer.c:753-811 | the symbols always concatenate to the same text |
| BpeNaive.NaiveIsFinal | src/model/tokenizer.c:783-803 | in the final symbol list no adjacent pair has a rank |
| BpeNaive.NaiveSymbols | src/model/tokenizer.c:783-803 | every final symbol is an initial character or the product of a ranked merge |
| BpeHeap.RootIsLeast | src/model/tokenizer.c:681-727 | in an ordered heap no candidate is less than the root |
| BpeHeap.CandHeap.Push | src/model/tokenizer.c:695-708 | sift-up keeps the heap ordered and adds exactly the new candidate |
| BpeHeap.CandHeap.Pop | src/model/tokenizer.c:710-727 | returns a least candidate, removes exactly it, and keeps the heap ordered |
| BpeHeap.CandHeap.SiftDown | src/model/tokenizer.c:713-725 | restores the order below the root and keeps the contents |
| Tokenizer.EmitSymbolBound | src/model/tokenizer.c:732-751 | one symbol gives no more ids than it has bytes |
| Tokenizer.UnknownSymbol | src/model/tokenizer.c:732-751 | a symbol outside the vocabulary gives one id for each byte, its fallback or else unk, and nothing at all if there is neither |
| Tokenizer.EmitAllBound | src/model/tokenizer.c:732-811 | a list of symbols gives no more ids than they have bytes together |
| Tokenizer.BpeIdsBound | src/model/tokenizer.c:753-811 | the ids of a whole merge never exceed its input bytes |
| BpeMerge.FreshLeastIsBest | src/model/tokenizer.c:783-791 | under the loop invariant a version-fresh least candidate is the pair that the naive scan would choose |
| BpeMerge.MergeSymbols | src/model/tokenizer.c:793-799 | folding a node into its left neighbour is one merge step on the symbol list |
| BpeMerge.MergeKeepsLinks | src/model/tokenizer.c:793-799 | the in-array doubly linked list stays a list of the remaining nodes, in order |
| BpeMerge.FreshUntouched | src/model/tokenizer.c:787-797 | the version bumps outdate every candidate that mentions one of the two merged nodes |
| BpeMerge.FreshAfterMerge | src/model/tokenizer.c:787-799 | a candidate that is still fresh after a merge is the current candidate of some other ranked live pair |
| BpeMerge.MergeKeepsInv | src/model/tokenizer.c:783-802 | after a merge the rest of the heap is sound, and complete but for the two pairs that involve the merged node |
| BpeMerge.PushKeepsInv | src/model/tokenizer.c:687-708 | offering a pair closes its gap in the invariant |
| BpeMerge.MergeKeepsState | src/model/tokenizer.c:783-802 | a merge keeps the loop invariant and the final symbols of the naive procedure, and version counters stay below the number of merges |
| BpeMerge.NothingLeft | src/model/tokenizer.c:783-803 | when the heap is empty, the live symbols are the final symbols of the naive procedure |
| BpeMerge.Scratch.Split | src/model/tokenizer.c:762-777 | writes the doubly linked nodes of the UTF-8 characters of the input |
| BpeMerge.Scratch.PushCand | src/model/tokenizer.c:687-708 | pushes the candidate of two nodes at its rank and their current versions if and only if the pair is ranked |
| BpeMerge.Scratch.Fold | src/model/tokenizer.c:793-799 | extends the left node, bumps both versions and unlinks the right one, and changes nothing else |
| BpeMerge.Scratch.Seed | src/model/tokenizer.c:779-781 | seeds every ranked adjacent pair with at most n - 1 pushes and establishes the loop invariant |
| BpeMerge.Scratch.MergePair | src/model/tokenizer.c:793-802 | one merge with its two pushes re-establishes: fresh candidates are exactly the ranked live adjacent pairs |
| BpeMerge.Scratch.Turn | src/model/tokenizer.c:783-803 | one turn of the loop, for a stale or a fresh candidate, keeps the invariant and the push budget |
| BpeMerge.Scratch.Loop | src/model/tokenizer.c:783-803 | the whole loop ends with the symbols of the naive procedure, in at most 2 * (n - 1) further pushes, and never overruns a heap of 3 * n entries |
| BpeMerge.Scratch.EmitNode | src/model/tokenizer.c:732-751 | vocabulary id, else byte fallback, else unk, else nothing, byte by byte, within the room reserved |
| BpeMerge.Scratch.Emit | src/model/tokenizer.c:805-810 | walks the surviving list and writes the ids of its symbols in order |
| BpeMerge.Scratch.Merge | src/model/tokenizer.c:753-811 | for every merge table, vocabulary and input, bpe_merge returns the ids of the symbols that the naive "lowest rank, leftmost" procedure ends with, and -1 exactly for a WordPiece tokenizer or an over-long input; n characters take at most 3 * (n - 1) pushes |
| ScratchReserve.Scratch.Ensure | src/model/tokenizer.c:616-657 | one buffer: grown exactly when too small, its 32-bit capacity equal to the unbounded one, untouched when the allocation fails |
| ScratchReserve.Scratch.Reserve | src/model/tokenizer.c:610-661 | succeeds if and only if the length is at most UINT32_MAX / 3 and every needed allocation does; then every masked buffer has its room; no capacity shrinks, wraps or is recorded without its memory, also on failure |
| ProbeTable.NextPow2Least | src/model/tok_map.c:21-37 | no smaller power of two reaches the requested capacity |
| ProbeTable.SmearFills | src/model/tok_map.c:24-30 | the five shift-and-or steps set every bit below the highest one, for every 32-bit value |
| ProbeTable.NextPow2 | src/model/tok_map.c:21-31 | in uint32_t arithmetic: 1 for 0, the power of two r with r / 2 < v <= r up to 2^31, and 0 above |
| Bits.MaskIsMod | src/model/tok_map.c:82-102 | masking with 2^n - 1 is the remainder by 2^n, so the masked probe goes round the table |
| ProbeTable.MissMeansAbsent | src/model/tok_map.c:106-121 | a probe that ends at an empty slot proves that the key is nowhere in the table |
| ProbeTable.InsertKeepsOk | src/model/tok_map.c:86-97 | filling the slot where the probe ended keeps every other entry reachable and stores the extended map |
| ProbeTable.UpdateKeepsOk | src/model/tok_map.c:98-101 | overwriting a value keeps the table sound and stores the updated map |
| ProbeTable.FullMeansGrow | src/model/tok_map.c:79-80 | a table down to its last empty slot is above the growth threshold even in wrapping 32-bit arithmetic, unless it can grow no more |
| ProbeTable.Table.constructor | src/model/tok_map.c:39-46 | an empty table; its capacity is the power of two from the hint, at least 4, up to below twice the hint, and clamped at 2^30 |
| ProbeTable.Table.Probe | src/model/tok_map.c:81-103 | terminates, at the slot that holds the key or at the first empty one |
| ProbeTable.Table.Get | src/model/tok_map.c:106-121 | agrees with the abstract map on hits and on misses, for any hash function |
| ProbeTable.Table.Grow | src/model/tok_map.c:55-76 | doubles and keeps the map, or leaves the old table when allocation fails or the size limit is reached |
| ProbeTable.Table.Rehash | src/model/tok_map.c:62-71 | reinserts every old entry into the new array and nothing else |
| ProbeTable.Table.MaybeGrow | src/model/tok_map.c:79-80 | tolerates a failed growth; below the size limit it grows if and only if three quarters of the slots are in use and memory is there; at the last empty slot if and only if that is possible |
| ProbeTable.Table.Insert | src/model/tok_map.c:86-97 | adds exactly the new key and keeps an empty slot |
| ProbeTable.Table.Update | src/model/tok_map.c:98-101 | replaces the value of an existing key and nothing else |
| ProbeTable.Table.Put | src/model/tok_map.c:78-104 | for any pattern of failed growths the table stores the abstract map; an update never fails, and an insert fails if and only if the table cannot grow and the key would take the last empty slot; while growth succeeds at most three quarters of the slots are in use |
| Regex.EndsReach | src/model/tokenizer.c:815-828 | no match of any expression of this kind begins or ends inside a well-formed code point |
| Regex.StarFirst | src/model/tokenizer.c:846-856 | a greedy star over a class first tries the whole run |
| Regex.StarThen | src/model/tokenizer.c:911-946 | what follows a greedy star is tried after every longer repetition first and at the present position last |
| Regex.OptThen | src/model/tokenizer.c:858-884 | an optional prefix is tried present, then absent |
| Regex.PlusStarFirst | src/model/tokenizer.c:886-909 | one class repeated, followed by another repeated, first ends at the two runs' ends |
| Pretokenize.ContractionFirst | src/model/tokenizer.c:830-844 | match_contraction is the first match of the contraction branch with ASCII case folding |
| Pretokenize.WhiteIs | src/model/tok_unicode.c:189-197 | the whitespace test has exactly the 25 code points with the Unicode property White_Space |
| Pretokenize.LettersFirst | src/model/tokenizer.c:858-884 | the letter scan is the first match of the optional-lead letter branch, backtracking over the lead included |
| Pretokenize.SymbolsFirst | src/model/tokenizer.c:886-909 | the punctuation scan is the first match of its branch |
| Pretokenize.LinesFirst | src/model/tokenizer.c:911-940 | `\s*[\r\n]+` backtracks to one past the last newline of the run |
| Pretokenize.LookaheadFirst | src/model/tokenizer.c:919-945 | a greedy blank run before `(?!\S)` stands at the end of the text, otherwise gives up exactly its last character, and an empty one fails |
| Pretokenize.TrailingFirst | src/model/tokenizer.c:919-945 | `\s+(?!\S)` ends at the run's end at the end of the text, else before its last character, else fails |
| Pretokenize.WhiteFirst | src/model/tokenizer.c:927-946 | the single scan of match_ws_run is the first match of the last three branches |
| Pretokenize.StepIsMatch | src/model/tokenizer.c:954-991 | one step of the loop is the first match, greedy with backtracking, of the seven-branch expression with ASCII case folding in the first branch |
| Pretokenize.FoldedMatchIff | src/model/tokenizer.c:815-844 | with (?i:) read as Unicode case folding, one step is the first match of the expression if and only if no apostrophe, U+017F and a further letter or mark stand there in a row |
| Pretokenize.FoldingDiffers | src/model/tokenizer.c:832-844 | a text where they differ: on an apostrophe, U+017F and "a" the expression takes 3 bytes and the code 4 |
| Pretokenize.StepAdvances | src/model/tokenizer.c:959-982 | every step matches something: the one-character fallback is unreachable |
| Pretokenize.SlicesWhole | src/model/tokenizer.c:948-993 | slices are non-empty, contiguous, and never split a well-formed code point |
| Pretokenize.SlicesCover | src/model/tokenizer.c:948-993 | slices concatenate to the text |
| Pretokenize.ScanRun | src/model/tokenizer.c:848-856 | ends where the run of letters and marks ends |
| Pretokenize.MatchLetters | src/model/tokenizer.c:863-884 | computes the end that LettersFirst is about |
| Pretokenize.MatchSymbols | src/model/tokenizer.c:890-909 | computes the end that SymbolsFirst is about |
| Pretokenize.ScanWhite | src/model/tokenizer.c:929-938 | one pass finds the end of the run, its last character and the end of its last newline |
| Pretokenize.MatchWhite | src/model/tokenizer.c:927-946 | computes the end that WhiteFirst is about |
| Pretokenize.MatchAt | src/model/tokenizer.c:956-982 | the branch order of the loop body gives the first match of the whole expression |
| Pretokenize.Pretokenize | src/model/tokenizer.c:948-993 | the slice buffer holds exactly the successive first matches of the expression and is never overrun |
| ByteLevel.Decode | src/model/tokenizer.c:1189-1226 | unknown ids give nothing, other ids the bytes of their token's mapped characters, unmapped characters verbatim |
| ByteLevel.DecodeToken | src/model/tokenizer.c:1199-1223 | the inner loop over one token |
| ByteLevel.OtherCharsPass | src/model/tokenizer.c:1206-1216 | a character that stands for no byte, and a byte outside well-formed UTF-8, is passed through |
| ByteLevel.UnknownIdIsSkipped | src/model/tokenizer.c:1195-1197 | an id without a token contributes nothing |
| ByteLevel.Buffers.Spell | src/model/tokenizer.c:1015-1023 | spells a word in at most twice its bytes |
| ByteLevel.Buffers.EncodeWord | src/model/tokenizer.c:1013-1030 | appends the BPE ids of the spelled word, within twice its bytes |
| ByteLevel.Buffers.EncodeWords | src/model/tokenizer.c:1012-1032 | accumulates the ids of all words in order without overrunning the 2 * len reservation |
| ByteLevel.EncodeByteLevel | src/model/tokenizer.c:997-1032 | fails exactly when 2 * len exceeds UINT32_MAX / 3 or memory runs out, else returns the ids of the words of the text |
| ByteLevel.WordRoundTrip | src/model/tokenizer.c:732-811 | one word: decoding its ids gives its bytes |
| ByteLevel.WordsRoundTrip | src/model/tokenizer.c:997-1032 | the same for any list of words |
| ByteLevel.ReturnedString | src/model/tokenizer.c:1182-1226 | read as a C string, the result of decode(encode(t)) is t if and only if t has no NUL byte |
| ByteLevel.NulIsCut | src/model/tokenizer.c:1182-1226 | the text of one NUL byte comes back as the empty string |
| ByteLevel.RoundTrip | src/model/tokenizer.c:1189-1226 | the buffer that decode fills for encode(t) holds t, for every byte string t, ill-formed UTF-8 and NUL bytes included, if the 256 mapped characters and every merge product are in the vocabulary and the id table inverts it |
| Detok.CompletePrefix | src/model/detok.c:22-30 | the prefix of whole characters by lead byte |
| Detok.AnnouncedLength | src/model/detok.c:14-20 | a lead byte announces the length of the well-formed units it begins; a byte that begins none counts as one, but for C0, C1 and F5 to F7 |
| Detok.Detokenizer.Feed | src/model/detok.c:54-74 | emits the whole characters held so far and keeps the rest |
| Detok.Detokenizer.Flush | src/model/detok.c:76-78 | emits what is held and empties the buffer |
| Detok.Kept | src/model/detok.c:32-74 | what one feed emits and what it keeps concatenate to what was held and the decoded token; what is kept is empty or shorter than its first byte announces |
| Detok.FeedAll | src/model/detok.c:54-78 | a client that feeds every id and flushes sees exactly the stream the lemmas are about |
| Detok.StreamConserves | src/model/detok.c:22-78 | nothing is lost, repeated or reordered: all pieces concatenate to the fed bytes, each cut at its first NUL |
| Detok.CutAtNul | src/model/detok.c:54-70 | feeding drops bytes if and only if a token decodes to a NUL |
| Detok.StreamEqualsBatch | src/model/detok.c:54-78 | the streamed text equals the batch decoding if and only if no fed token decodes to a NUL byte |
| Detok.NulIsLost | src/model/detok.c:54-70 | a token that spells byte 0: the batch decoding has the NUL, the stream nothing |
| Detok.CutKeepsWhole | src/model/detok.c:22-30 | cutting a prefix of a well-formed text at whole characters leaves both the cut part and the rest, with what follows, well-formed |
| Detok.PiecesWellFormed | src/model/detok.c:22-78 | if the whole text is well-formed UTF-8, every emitted piece is |
| SentencePiece.EncodeSentencePiece | src/model/tokenizer.c:1034-1055 | fails exactly when 3 * len exceeds UINT32_MAX / 3 or memory runs out, else returns the BPE ids of the text with every space replaced |
| SentencePiece.UnmarkInPlace | src/model/tokenizer.c:1321-1334 | the in-place compaction replaces every U+2581 from left to right |
| SentencePiece.Decode | src/model/tokenizer.c:1300-1342 | byte tokens give their byte, other tokens their text; marks become spaces; one leading space goes when asked |
| SentencePiece.ByteTokenIs | src/model/tokenizer.c:1283-1298 | byte tokens are exactly the six characters <0xNN> with hexadecimal digits of either case, and the value is NN |
| SentencePiece.UnknownIdIsSkipped | src/model/tokenizer.c:1303-1305 | an id without a token contributes nothing |
| SentencePiece.SymbolDecodes | src/model/tokenizer.c:732-751 | a symbol decodes to its own bytes, through the vocabulary or through byte fallback |
| SentencePiece.RawRoundTrip | src/model/tokenizer.c:732-811 | for every NUL-free text the decoder's buffer, before marks are replaced, is the encoder's buffer |
| SentencePiece.NoStraddling | src/model/tokenizer.c:1034-1055 | after spaces are replaced, a mark-free text that does not begin with a space does not begin with a mark: replaced spaces never complete a match with neighbouring bytes |
| SentencePiece.UnmarkMarked | src/model/tokenizer.c:1321-1334 | replacing marks undoes replacing spaces on every text without a mark |
| SentencePiece.UnmarkLeavesNone | src/model/tokenizer.c:1321-1334 | no mark survives decoding |
| SentencePiece.RoundTrip | src/model/tokenizer.c:1300-1342 | read as the C string it is, decode(encode(t)) == t if and only if t holds neither a NUL nor E2 96 81, given the <0xNN> tokens, an inverse id table and no merge product of that shape |
| SentencePiece.DummyPrefix | src/model/tokenizer.c:1334-1338 | decoding with strip drops exactly one leading space: the text behind a dummy prefix comes back |
| SentencePiece.MarkComesBackAsSpace | src/model/tokenizer.c:1300-1342 | the text E2 96 81 comes back as one space |
| SentencePiece.UnmarkPartly | src/model/tokenizer.c:1321-1334 | replacing marks restores a mark-free text whichever of its spaces had been replaced |
| WordPiece.WordsSpell | src/model/tokenizer.c:1128-1144 | the words spell the text without its whitespace, and each is one punctuation byte or a run without punctuation |
| WordPiece.LowerIs | src/model/tokenizer.c:1121-1124 | lowering maps the 26 ASCII capitals to their small letters and keeps every other byte |
| WordPiece.SeparatorsAre | src/model/tokenizer.c:1057-1061 | what separates words is exactly the 32 ASCII symbols and four blanks |
| WordPiece.WordsAt | src/model/tokenizer.c:1128-1143 | a run is one word up to the next separator, a symbol one by itself, a blank none; this decides the words of every text |
| WordPiece.Longest | src/model/tokenizer.c:1088-1099 | the piece taken is the longest that ends between characters and is in the vocabulary, or none is |
| WordPiece.Greedy | src/model/tokenizer.c:1068-1107 | a word gives no more pieces than it has bytes left |
| WordPiece.DivisionIsGreedy | src/model/tokenizer.c:1062-1107 | a division of the word into pieces that are each the longest at their place is the one greedy matching returns |
| WordPiece.GreedyIsDivision | src/model/tokenizer.c:1062-1107 | greedy matching succeeds only where such a division exists, so a word is bad exactly when there is none |
| WordPiece.WordIdsAre | src/model/tokenizer.c:1063-1107 | a word with no division into longest pieces is the single id unk, or 0 without one; any other gives the ids of the division |
| WordPiece.Buffers.FindPiece | src/model/tokenizer.c:1074-1100 | the shrinking probe over the candidate buffer finds the longest piece |
| WordPiece.Buffers.EmitWord | src/model/tokenizer.c:1068-1107 | appends the greedy pieces of the word, or one unk in place of all of them when it gets stuck, within the word's bytes |
| WordPiece.Buffers.SplitStep | src/model/tokenizer.c:1129-1142 | one turn of the splitting loop emits exactly the words it closes |
| WordPiece.Buffers.EncodeWords | src/model/tokenizer.c:1127-1144 | the splitting loop emits the ids of all words in order |
| WordPiece.EncodeWordPiece | src/model/tokenizer.c:1109-1147 | fails exactly when len + prefix exceeds UINT32_MAX / 3 or memory runs out; else the ids of the lowered words, at most one per byte; len + prefix holds every probe key |
| WordPiece.EncodeAlloc | src/model/tokenizer.c:1433-1442 | the ids wrapped in the bos and eos ids that exist; the count never exceeds an int |
| WordPiece.Decode | src/model/tokenizer.c:1249-1283 | the loop over ids: special, bos and eos ids dropped, continuations glued, other tokens joined by a space unless cleanup drops it |
| WordPiece.StepIs | src/model/tokenizer.c:1249-1281 | which ids are silent, which tokens glue without the prefix, and that any other comes behind one space unless nothing has come before or cleanup drops it |
| WordPiece.DropsSpaceIff | src/model/tokenizer.c:1232-1247 | cleanup drops the space before exactly the tokens that begin with one of nine strings |
| WordPiece.FirstPieceGap | src/model/tokenizer.c:1237-1247 | for words the splitter can produce, cleanup drops the space before . ? ! and a comma only, and looking at the first piece is looking at the word |
| WordPiece.WrapDropped | src/model/tokenizer.c:1430-1442 | the bos and eos ids put around the body do not change what is decoded |
| WordPiece.RoundTrip | src/model/tokenizer.c:1109-1147 | decode(encode(t)) is the lowered words joined by single spaces, none before . ? ! and a comma under cleanup, whenever every word is known and none starts with the continuation prefix |
| WordPiece.DefaultPrefix | src/model/tokenizer.c:298-299 | no word starts with the default prefix "##" |
| SpecialScan.FindSub | src/model/tokenizer.c:1359-1370 | the first occurrence at or after the cursor, or none; an empty key is never found |
| SpecialScan.NextUnique | src/model/tokenizer.c:1470-1475 | earliest occurrence, longest key on ties, leaves no choice, so map order cannot matter |
| SpecialScan.PiecesSpellText | src/model/tokenizer.c:1462-1490 | gaps and special tokens concatenate back to the text |
| SpecialScan.PickBest | src/model/tokenizer.c:1464-1476 | the scan over cached occurrences finds the best one |
| SpecialScan.BestIsNext | src/model/tokenizer.c:1464-1477 | the best cached occurrence is the one the rule demands, even though only the caches that fell behind were renewed |
| SpecialScan.Probe | src/model/tokenizer.c:1449-1460 | builds one site per key with its first occurrence |
| SpecialScan.PickNext | src/model/tokenizer.c:1464-1477 | renews what fell behind the cursor and picks the next special token, or reports that there is none |
| SpecialScan.Turn | src/model/tokenizer.c:1463-1485 | one turn takes exactly the next special token and the gap before it, and advances |
| SpecialScan.Scan | src/model/tokenizer.c:1462-1490 | the whole scan terminates with the ids of the pieces in order, or fails exactly when a gap does |
| SpecialScan.EncodeWithSpecials | src/model/tokenizer.c:1443-1490 | the cached, lazily re-probed scan equals the rule, for every key set in every order |
| SpecialScan.NoSpecials | src/model/tokenizer.c:1486-1490 | without special tokens the whole text is one segment |
| SpecialScan.LongerIsTaken | src/model/tokenizer.c:1470-1475 | of two special tokens that begin together the longer is taken whole |
| EncodeAlloc.PiecesDecode | src/model/tokenizer.c:1374-1390 | the ids of any list of pieces decode to the text of the pieces |
| EncodeAlloc.FullRoundTrip | src/model/tokenizer.c:1423-1500 | byte-level, special tokens parsed, for every text that is accepted: the decoded buffer holds the text, and the C string returned is the text exactly when it has no NUL byte |
| EncodeAlloc.Encode | src/model/tokenizer.c:1443-1500 | the ids of the pieces the rule demands, for special tokens in any order; fails exactly when a segment does or the count exceeds INT32_MAX |
| EncodeAlloc.SpPieces | src/model/tokenizer.c:1374-1390 | a list of pieces decodes, before marks are replaced, to its text with the spaces of the gaps marked |
| EncodeAlloc.SpFullRoundTrip | src/model/tokenizer.c:1423-1500 | SentencePiece, special tokens parsed, for every text that is accepted: the C string returned is the text exactly when it has no NUL byte and no E2 96 81 |
| StreamRing.Ring.constructor | src/engine/engine.c:15-31 | an empty ring of the given capacity |
| StreamRing.Ring.TryPush | src/engine/engine.c:52-68 | appends at the wrapped position, or refuses when full or cancelled and changes nothing |
| StreamRing.Ring.OverwriteNewest | src/engine/engine.c:143-161 | replaces the newest buffered chunk only |
| StreamRing.Ring.TryNext | src/engine/engine.c:74-103 | removes and returns the oldest chunk |
| StreamRing.Ring.FinishCancelled | src/engine/engine.c:143-161 | appends CANCELLED, or overwrites the newest chunk when the ring is full, and marks the stream cancelled |
| StreamProtocol.FlowStep | src/engine/engine.c:52-171 | every step keeps: delivered plus buffered chunks are a prefix of the program's chunks, or such a prefix (short of its newest chunk only if the ring was full) with one CANCELLED terminal |
| StreamProtocol.FlowAlways | src/engine/engine.c:52-171 | that holds in every reachable state of every interleaving, for every program of polls and pushes |
| StreamProtocol.OnlyWhenAsked | src/engine/engine.c:143-171 | a stream becomes cancelled, and the engine turns away from its work, only after a cancel, a shutdown store or a stop command in the run |
| StreamProtocol.QuitIff | src/engine/engine.c:164-171 | a command gives up without a terminal exactly when its refused push checks for shutdown before any shutdown was stored |
| StreamProtocol.OutcomeAlways | src/engine/engine.c:52-171 | an ended stream has carried all its chunks, or a part without terminal and a CANCELLED that was asked for, or what came before a push that gave up |
| StreamProtocol.TerminalUnlessGivenUp | src/engine/engine.c:164-171 | per run: exactly one terminal, as the last chunk, unless a refused push of generate_fail found no shutdown in the run so far; then none at all |
| StreamProtocol.TerminalIff | src/engine/engine.c:164-171 | a path ends with exactly one terminal in every run if and only if none of its pushes is made by generate_fail or its twin in handle_generate |
| StreamProtocol.StubAlways | src/engine/engine.c:325-357 | with the stub model an ended stream has carried, written out over the prompt and the limit: ids from the first on and then one terminal; STOP only when all of them are there and the limit allows it, LENGTH only with the limit many where the prompt has more, CANCELLED, short of an id perhaps, only if a cancel, a shutdown or a stop command occurs in the run |
| StreamProtocol.StubCut | src/engine/engine.c:325-357 | what precedes the terminal in a cut stub stream is a prefix of the tokens |
| StreamProtocol.StubShape | src/engine/engine.c:325-357 | the stub path operation by operation: a look at shutdown before every token, then the token; one terminal push at the end |
| StreamProtocol.AfterCancel | src/engine/engine.c:52-66 | after a cancel, whatever follows: no push succeeds, no poll that looks at the flag is passed, and nothing is added to what the stream carries but one CANCELLED, for which the newest buffered chunk may have to go |
| StreamProtocol.CancelDecides | src/engine/engine.c:52-171 | a stream that had no terminal when it was cancelled gets CANCELLED as its last chunk, or none where the refused push of generate_fail gives up |
| StreamProtocol.AfterShutdown | src/engine/engine.c:325-357 | after a shutdown store no poll is passed any more, but for one that had already read the flag |
| StreamProtocol.UnaskedCompletes | src/engine/engine.c:360-594 | without cancel, shutdown or stop command in the run, a command that ends has carried every chunk of its path |
| StreamProtocol.ReadToTheEnd | src/engine/engine.c:52-110 | from every reachable state, a consumer that takes a chunk before every engine step lets the command end and reads its stream to the end within a bound |
| StreamProtocol.DeliversAll | src/engine/engine.c:52-110 | and without interference exactly the chunks of the path have then been delivered |
| StreamProtocol.RejectedIsCancelled | src/engine/engine.c:246-296 | a command that is turned away from the queue, after a shutdown or a stop command, gets a stream of nothing but CANCELLED |
| StreamProtocol.CutCarries | src/engine/engine.c:143-161 | a cut stream has carried the pushes made and CANCELLED, short of the newest chunk if and only if the ring was full in the run when it was finished |
| StreamProtocol.WakeableAlways | src/engine/engine.c:756-763 | in every run, a shutdown that came after the command was inflight has cancelled or will cancel its stream, and one that came before is seen at the first poll |
| StreamProtocol.NoLostWakeup | src/engine/engine.c:52-110 | a push sleeps on the condition variable, which only a broadcast ends, only while the ring is full and the stream not cancelled, and after a shutdown store only if a signal is still ahead or the command began after the store |
| StreamProtocol.NeverStuck | src/engine/engine.c:52-62 | no run leaves the engine asleep in a push under shutdown with no signal coming, if the ring holds the pushes before the first poll |
| StreamProtocol.StuckExists | src/engine/engine.c:604-617 | with a smaller ring such a run exists |
| StreamProtocol.StuckIff | src/engine/engine.c:604-617 | so the condition on the capacity is exact |
| StreamProtocol.ShutdownDrains | src/engine/engine.c:334-350 | once shutdown is signalled the engine thread ends the command by itself within a bound, even if the consumer never reads |
| StreamProtocol.CancelDrains | src/engine/engine.c:52-171 | once a stream is cancelled the engine thread ends the command by itself within a bound, even if the consumer never reads, for every capacity |
| StreamProtocol.PathCapacities | src/engine/engine.c:359-617 | the stub path needs capacity 1, the failing paths exactly 2, every real path at most 2 |
| StreamProtocol.RealShape | src/engine/engine.c:406-594 | the real path operation by operation: two polls before every forward of the prefill and the seed, two before every sampled token, and how it ends |
| StreamProtocol.RealCarries | src/engine/engine.c:360-594 | the chunks of the real path: the generated ids, then STOP at an end token, LENGTH at the limit, or ERROR and STOP on failure |
| StreamProtocol.RealAlways | src/engine/engine.c:360-594 | in every run of every real path an ended stream has carried a prefix of the ids in order and then: its own ending with no id missing; a CANCELLED that somebody asked for, on a failing path perhaps after its ERROR; or, on a failing path that gave up, nothing more |
| StreamProtocol.RealTerminalIff | src/engine/engine.c:360-594 | the real path always ends with exactly one terminal if and only if it is not a failing one |
| StreamProtocol.ErrorPathWithoutTerminal | src/engine/engine.c:164-171 | a run of the error path that ends without any chunk |
| Mailbox.List.Enqueue | src/engine/engine.c:786-795 | the linked list gets the command at its end |
| Mailbox.List.Dequeue | src/engine/engine.c:267-280 | the linked list gives up its first command |
| Mailbox.DrainCancel | src/engine/engine.c:284-296 | the detached list is walked once, in order, to its end |
| Mailbox.LineStep | src/engine/engine.c:690-724 | every step keeps: disposed, in hand and queued commands, in that order, are the commands enqueued |
| Mailbox.PostersStep | src/engine/engine.c:797-810 | every step keeps: a command is enqueued or rejected at most once, and as its poster remembers |
| Mailbox.InvAlways | src/engine/engine.c:690-810 | both hold in every reachable state of every interleaving |
| Mailbox.HandledUnlessCaused | src/engine/engine.c:690-724 | in every run without a shutdown or a destroy nothing is refused, and a command that was drained or an engine thread that is draining or gone means that a stop command has been handled; and nothing is ever handled after a stop command |
| Mailbox.HandledInTurn | src/engine/engine.c:690-724 | a queued command with no stop command before it is handled within a bounded number of steps of the engine thread |
| Mailbox.AtMostOneMore | src/engine/engine.c:690-724 | once shutdown is stored at most one more command is handled, and none if the engine thread is just about to read the flag |
| Mailbox.QueuedIsInLine | src/engine/engine.c:690-724 | in every run without shutdown or destroy each queued command with no stop command before it stands so, the engine thread being awake |
| Mailbox.PostGoesThrough | src/engine/engine.c:786-810 | without shutdown the two steps of a post append the command and wake the engine thread; after shutdown at most three reject it |
| Mailbox.OnceAndInOrder | src/engine/engine.c:246-296 | no command is disposed of twice by anyone, and queued commands are taken in enqueue order |
| Mailbox.DestroyedMeansDrained | src/engine/engine.c:765-782 | when engine_destroy has returned, every enqueued command has been handled or cancelled and nothing is left |
| Mailbox.DestroyedIsFinal | src/engine/engine.c:797-810 | afterwards no event puts a command into the queue or hands one out |
| Mailbox.MutexLeftAloneIff | src/engine/engine.c:779-810 | the mutex that engine_destroy has destroyed is never taken again if and only if, when it returns, no poster is between its two checks and no signaller before its section |
| Mailbox.NoLostWakeup | src/engine/engine.c:267-280 | the engine thread sleeps on the condition variable only with an empty queue, and after a shutdown store only while a signal is still ahead |
| Mailbox.DestroyProgress | src/engine/engine.c:765-782 | until engine_destroy returns, it or the engine thread can take a step, although a sleeping thread is woken by signals only |
| Mailbox.RankDrops | src/engine/engine.c:690-782 | after shutdown each effective step of the two threads shortens the way to the return and no post lengthens it |
| Mailbox.DestroyReturns | src/engine/engine.c:765-782 | from every state after the call, at most Rank steps of the two threads let engine_destroy return; no spurious wake-up is needed |
| Mailbox.ReleasedOnce | src/engine/engine.c:246-263 | releases are steps of their own on each path: handler, reclaim, both drains and a rejecting poster together release the engine's reference to a command's stream at most once, exactly once by the time engine_destroy has returned, and never for a command without a stream |
| GenRequest.InvAlways | src/http/gen_request.c:300-610 | the life-cycle invariant holds in every interleaving of engine sections, late notify callbacks, drains, timer, connection loss and close callbacks |
| GenRequest.EndingsEndOnce | src/http/gen_request.c:300-467 | whichever of its parts can be built, what finish_response or finish_error sends ends with a closing write or close and has no other |
| GenRequest.Request.FinishResponse | src/http/gen_request.c:300-419 | every branch sends an attached connection a list that ends with its only closing entry, and any other connection nothing |
| GenRequest.Request.FinishError | src/http/gen_request.c:421-467 | the same for the error ending |
| GenRequest.Request.EmitSse | src/http/gen_request.c:233-278 | makes the step that TokenIsSent and TokenOtherwise decide: one event, or a connection that is suppressed from then on; nothing is sent to a connection that is lost, ended or congested |
| GenRequest.Request.OnToken | src/http/gen_request.c:476-525 | a token that does not end the response sends what TokenIsSent says, nothing that closes, and leaves the connection as it was; one that fails ends it as EndingStep says |
| GenRequest.TokenIsSent | src/http/gen_request.c:233-278 | a token with text that is processed on an attached, unsuppressed event stream adds exactly one entry to the log: the role if this is a chat stream that has not sent it, else a delta |
| GenRequest.TokenOtherwise | src/http/gen_request.c:476-525 | any other token that does not end the response sends nothing, and a congested connection is suppressed from then on |
| GenRequest.TellsAlways | src/http/gen_request.c:233-278 | in every run: before its ending a stream has been sent exactly one event for each token that was to be sent, the role first in a chat |
| GenRequest.EndingStep | src/http/gen_request.c:469-534 | a DONE, an error or a failing token ends the response with the entries written out: the flushed rest, the finish, the usage if asked for and the close of a stream, or a body with status 200; the status of the error, or 500 |
| GenRequest.LossStep | src/http/gen_request.c:544-560 | a lost connection is forgotten with nothing sent, and teardown begins |
| GenRequest.LogAlways | src/http/gen_request.c:233-467 | in every run: the log closes once, at its end, if the response has ended on the connection, else never; an unstreamed response is one entry, a streamed one has no body; the role comes at most once and before any text |
| GenRequest.SilentAfterwards | src/http/gen_request.c:90-96 | once a connection is lost or closed nothing is sent to it any more |
| GenRequest.HushedAfterwards | src/http/gen_request.c:489-493 | once writes are suppressed, the only thing still sent is the close |
| GenRequest.TerminalGetsProcessed | src/http/gen_request.c:226-229 | no lost wake-up: while a terminal chunk is buffered, the pending callback, wake-up or drain leads to its processing in at most two steps more than there are chunks |
| GenRequest.NotifyReachesLiveRequest | src/engine/engine.c:52-72 | a callback captured under the lock never runs on a closing or freed request, since closing waits for the engine's reference |
| GenRequest.ClosedOnce | src/http/gen_request.c:556-610 | whatever combination of teardown, timer and callbacks occurs, a request is closed once and freed once, not before its pending close callbacks |
| GenRequest.OneClosing | src/http/gen_request.c:300-467 | in every run, a response that has ended on a connection that was not lost has closed it with its last entry and no other; otherwise nothing has closed |
| GenRequest.TerminalClosesAttached | src/http/gen_request.c:469-534 | the event that processes the first terminal chunk, or a token that fails, sends it |
| GenRequest.FinishedGetsFreed | src/http/gen_request.c:570-610 | a finished request whose stream the engine has released begins to close at a timer tick, is still there after the first of its two close callbacks, and freed by the second |
| GenRequest.LossFrees | src/http/gen_request.c:546-610 | a connection lost after the engine has let go closes the one handle, whose callback frees the request |
| DecodeLoop.NaiveTokens | src/engine/engine.c:300-306 | the naive loop's reply written out: the key of turn i is the first half of i splits, each token is sampled with the second half of the next split from the logits of the prompt and exactly the tokens before it, none is an end token, and it stops only where the next sampled token would be one, or at the limit |
| DecodeLoop.OnlyNaive | src/engine/engine.c:300-306 | and no other reply satisfies this |
| DecodeLoop.NaiveStep | src/engine/engine.c:472-590 | one turn that does not stop moves the sampled token from what is left to what is emitted |
| DecodeLoop.Model.Forward | src/engine/engine.c:448-454 | one chunk through all layers, from the cached rows, gives the logits of the whole history by the position-by-position definition |
| DecodeLoop.Model.Prefill | src/engine/engine.c:406-434 | chunks of 512 leave exactly prompt[:-1] in the cache, in the least number of forwards |
| DecodeLoop.Model.Decode | src/engine/engine.c:457-594 | issuing the next forward before the end-token check changes neither tokens nor finish reason; forwards are counted and at most one is discarded |
| DecodeLoop.Generate | src/engine/engine.c:360-594 | without cancel or failure the path equals the naive loop over the definition, through chunked prefill, trimmed views, shared layers and pipelining together, including the too-long, empty and zero-budget requests; every token of the reply is sampled, and the end decided, as NaiveTokens writes out, from the definition's logits and the right half of the right key; the cache holds exactly the tokens fed |
| KvCache.Entry.Grow | src/engine/kvcache.c:35-96 | the capacity is doubled until it fits, valid rows survive, and over the life of a layer all copying together stays within the capacity |
| KvCache.Entry.Update | src/engine/kvcache.c:98-180 | appends the rows and returns the possibly trimmed views; fails, contents kept, exactly for a negative cap or for shapes that are not of rank 4, differ between keys and values in batch, heads, length or dimension, or differ in heads or dimension from what the layer holds; storage stays below twice the rows held |
| KvCache.Entry.View | src/engine/kvcache.c:182-226 | the same view without appending; fails exactly on an untouched layer or a negative cap |
| Attention.KvSourceLayer | src/model/model.c:258-270 | the downward search finds the last owning layer of the same type, or -1 |
| Attention.SourceOf | src/model/model.c:253-270 | a source is an earlier, owning layer of the same kind |
| Attention.SourceIs | src/model/model.c:253-270 | exactly the last num_kv_shared_layers layers look for a source, and it is the last earlier layer of the same kind before those, or -1 |
| Attention.LastOfBlockIsGlobal | src/model/model.c:219-235 | without an explicit list, of every sliding_window_pattern layers in a row, counted from 0, exactly the last is global |
| Attention.AttendedIff | src/engine/forward.c:709-727 | the window of the definition: everything up to the position, or with local attention the positions less than the window away |
| Attention.HiddenIs | src/engine/forward.c:495-727 | the definition row by row: at position p a layer gets position p and, for every c of its window in order, the key row at position c and the value row of itself or of its source layer |
| Attention.KindOf | src/model/model.c:219-235 | the other kinds of configuration: an explicit list up to 128 layers, all global without a window, none with a window and no pattern |
| Attention.SelectSlice | src/engine/forward.c:241-276 | a mask that allows exactly an interval attends exactly that slice |
| Attention.WindowSeen | src/engine/forward.c:709-727 | full view plus mask, trimmed view without mask and causal mode all let a query at position p see exactly its window ending at p |
| Attention.QuerySees | src/engine/forward.c:615-727 | the same for the keys and values of the layer that is read, be it the layer itself or its source |
| Attention.AttendIsNext | src/engine/forward.c:615-727 | attending from the cache, with the rotary offset the code uses, gives the next layer's hidden states of the position-by-position definition |
| Attention.OwnStep | src/engine/forward.c:634-704 | a layer that owns its cache appends exactly the rows of the new positions |
| Attention.SharedStep | src/engine/forward.c:620-633 | a KV-shared layer reading its source gets the same window and offset |
| Attention.ChunkAgrees | src/engine/forward.c:495-727 | one forward over a chunk takes caches of n positions to caches of m and yields the defined hidden states of n to m |
| Attention.FeedAgrees | src/engine/forward.c:495-727 | so does any sequence of chunks |
| Attention.CutDoesNotMatter | src/engine/engine.c:406-594 | any two ways of cutting the same tokens into prefill and decode chunks give the same hidden state everywhere |
| Attention.HiddenPrefix | src/engine/forward.c:241-276 | a hidden state depends only on the tokens up to its position |
| Attention.ForwardExtends | src/engine/forward.c:495-727 | caches that hold a history, fed further ids, hold the longer one, and the last hidden state is that of the definition |
| Attention.UnsourcedFails | src/engine/forward.c:615-618 | a forward fails when some shared layer has no source of its kind |
| ExpertDispatch.ArgsortInverts | src/engine/forward.c:1862-1865 | the argsort of a permutation is its inverse, whichever orders the sorts return |
| ExpertDispatch.SortedSlot | src/engine/forward.c:1862-1910 | position p of the un-permuted result is the expert of slot p applied to row p / K |
| ExpertDispatch.ReshapeAt | src/engine/forward.c:1856-1874 | reshaping is row-major |
| ExpertDispatch.PathsAgree | src/engine/forward.c:1831-1958 | for every B, S, K and index array the sorted path gives slot by slot the result of the direct path |
| Sampler.SumPermuted | src/engine/sampler.c:168-171 | sorting does not change masses |
| Sampler.CutoffIs | src/engine/sampler.c:168-178 | the clamped cutoff is the sorted logit at the first position whose tail mass exceeds 1 - p |
| Sampler.NucleusMass | src/engine/sampler.c:124-196 | for 0 < p < 1 the kept tokens hold at least p of the mass and those strictly above the cutoff less than p |
| Sampler.TopKCount | src/engine/sampler.c:97-122 | at least k logits reach the cutoff and fewer than k lie above it |
| Sampler.MinPExact | src/engine/sampler.c:198-232 | the threshold in logit space keeps exactly the tokens at least min_p times as likely as the likeliest |
| Sampler.MaxSurvives | src/engine/sampler.c:324-356 | for every setting of the three filters the maximum survives, at every place it stands, if and only if min_p <= 1; otherwise nothing survives |
| Sampler.FilteredIsOneCutoff | src/engine/sampler.c:324-356 | the composed filters are a single cutoff: what survives is unchanged and nothing larger is masked |
| Sampler.FilteredExactly | src/engine/sampler.c:324-356 | for every setting, what the composition keeps: a token survives, unchanged, if and only if it reaches the k-th largest logit, reaches the least logit of the smallest nucleus of top_p within what top-k leaves, and is min_p times as likely as every other |
| Sampler.FilteredIsDetermined | src/engine/sampler.c:97-232 | the result depends on the logits and the parameters only, not on which of equal values the library selects nor on how it sorts |
| Sampler.FewSurviveAbove | src/engine/sampler.c:324-356 | with top-k on, fewer than k survivors of the composition lie above any survivor |
| Sampler.SurvivingMass | src/engine/sampler.c:324-356 | with 0 < top_p < 1 the survivors reach a logit above which they hold less than top_p of the mass that top-k leaves, and without min-p they hold at least that part |

## Left out

- NFC and NFKC normalization, which runs before encoding, and the generated Unicode tables.
- Loading: JSON, vocabularies, configurations, weights, chat templates; only field copying is visible.
- Tensor arithmetic: linear layers, norms, rotary embedding numerics, softmax rounding, quantized gathers.
- HTTP parsing, routing, server-sent-event formatting, the registry, downloads, the command line, logging.
- Allocation failure where it only adds an early return; the growing output buffers of the decoders and of the id list are sequences that always grow.
- Timeouts, and fairness of the scheduler: what is proved is that a step is possible and that every effective step gets closer. Spurious wake-ups do not occur in the models; nothing relies on them.
- A write that fails synchronously and so reports the lost connection from inside the emission of a chunk (src/http/gen_request.c:253); a lost connection is an event of its own between the others.
- The accumulated text of a response that is not streamed, and the contents of the events; the log records which entries are sent, in which order, and which of them close. Graceful drain only cancels the stream.
- StreamProtocol: the ring is its contents here; StreamRing shows that the wrapped array has these contents. Failure to duplicate an error message is not an event.
- GenRequest: an engine section may leave any buffer behind, which covers the pushes of StreamProtocol and more. Whether a call succeeds is a free choice in each event (Luck).
- Mailbox: handling a command is one step; what happens inside a generate is StreamProtocol.
- StreamProtocol.ShutdownDrains: counts steps of the engine thread; forwards of the model inside a step are taken to return.
- ProbeTable.Table.constructor: the case of its allocation failing, where init only reports it. The map from strings and the map from pairs share one generic table.
- BpeMerge.Scratch.Merge: reservation is a precondition here; the encoders establish it, ScratchReserve models the growing.
- Utf8.InRanges: asks only that the ranges are sorted and disjoint; the tables themselves are not part of this model.
- KvCache.Entry.Grow: capacities are unbounded integers, so the doubling loop cannot overflow here; a failed copy is not modelled.
- KvCache.Entry.Update: a batch size other than that of the rows held is not checked by the code and left to the array library there; here rows carry their whole batch.
- Attention.UnsourcedFails: states failure for missing sources only; other failures of a layer are foreign calls.
- Attention.ChunkAgrees: the query's rotary offset and window reach an uninterpreted layer function, so what attention computes from them is not modelled; head dimensions and head counts per layer are not.
- DecodeLoop.Generate: without cancellation and failure, so for configurations in which every shared layer has a source; the streams of the other runs are in StreamProtocol.RealAlways.
- Pretokenize.FoldedMatchIff: reads (?i:) as simple case folding, code point by code point; foldings of one code point to several are not part of this model.
- ExpertDispatch.PathsAgree: the choice between the two paths by size, the dimension checks and the singleton axes of the gathered product are left out; the two paths agree wherever both are defined.
- Sampler.MaxSurvives: exact reals and an abstract exponential with its laws; the rounding that the clamp in the nucleus filter guards against does not occur here. Temperature scaling and the random draw are left out.
- WordPiece.RoundTrip: says nothing about texts with an unknown word, whose bytes the encoder drops by design.
- SentencePiece.RoundTrip: is about decoding a whole text; streaming equality does not hold for SentencePiece, where U+2581 may arrive as three byte tokens.
- Sampling-parameter precedence, log-probabilities, the arithmetic of random keys, base64 and the load and unload commands: easy next to the rest.
