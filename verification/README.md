# libvorbis and pixman cores, modelled and proved in Dafny

The project models the integer and bookkeeping cores of the two C libraries vendored under `jni/`:
libvorbis (an audio codec) and pixman's pixel combiners. Code that works in place on buffers and state
structures is modelled as Dafny classes and array methods, each proved against a specification; what the
code is for is then proved about those specifications. `dafny verify dfyconfig.toml` checks everything.

The modules, in order of dependency:

* **Huffman codebooks.** `CodeTree` says what canonical codewords are: each used entry owns the leftmost
  free node of its depth. `Markers` and `SharedBook` follow `_make_words` and its 33 moving cells;
  `PrefixMatch` and `DecodeTables` say what a decode table may contain; `PointerSort` and `BuildTables`
  build the sorted list, the first table and its clamped hints, `ValueList` the vectors of the entries;
  `Codebook` holds the two kinds of book; `RoundTrip` puts both ends together. `WordBits` ties the arithmetic
  bit reversal to the masked swaps.
* **Headers.** `StaticBook` packs and unpacks one codebook, `QuantVals` counts its values. `Fields`,
  `Floor0Setup`, `FloorSetup`, `ResidueSetup`, `MappingSetup` and `SetupHeader` do the same for the whole setup
  packet.
* **Blocking and overlap-add.** `Analysis` is the encoder's sliding buffer, `Synthesis` the decoder's
  two-half ring, `EndToEnd` a stream from the end of input to the last sample played, `Reconstruction` and
  `Transparency` what overlap-add is for: the signal comes back.
* **Bitrate management.** `Bitrate`: the floater, the two forcing loops, truncation and padding, the reservoir.
* **Floor 1.** `Lines` (line rendering), `Floor1` (prediction and folding), `FloorPosts` (which posts are drawn,
  and where they stand), `Floor1Curve` (the drawn curve),
  `Phrases` and `Floor1Packet` (the coded floor, over real codebooks), `FloorRoundTrip` (both ways).
* **Residue.** `Lattice` (the vector search), `PartitionWords`, `Residue` (the order of steps and the
  encoder), `ResidueOrder` (which order that is), `Residue2` (interleaving), `ResidueLayout` (the replay of any
  packet, step by step), `ResidueInverse` (the decoder of types 1 and 2), `ResidueLook` (from the
  setup to what the decoder looks up), `Cascade` (when the stages of a residue code exactly, and what they
  leave), `ResidueRoundTrip` (both types, both ways).
* **Pixels.** `Lanes` (rounding arithmetic for lanes of any width), `Packed` (the packed macros), `Blend`
  (what an operator means for a pixel), `BlendLaws` (what tells the operators and modes apart), `Combine` (rows of
  packed pixels).
* **Coupling** of channels, and **LinkSearch**, the bisection that finds the links of a chained file.

A packet is a sequence of bits with a read cursor (`BitBuffer`). Decoders accept any packet, and promise to
stay in range and to accept only what is valid. Where a format is shared by a writer and a reader, what the reader
makes of any packet is said by the places of the bits (`Fields.Stands`, and the predicates `Laid` of the headers) or
by the codewords heard one after the other (`Phrases.Heard`, `ResidueLayout.Play`), without naming the writer. What
they make of a packet that an encoder wrote is promised
under a ghost flag, `known`, that comes with what was written. The source does not by itself see to two things
that this needs, and the contracts that need them name them: room for what the residue decoder reads past the
end of a partition (`Layout.Fits`, see `ResidueInverse.StaysInside`), and floors that fit the post tables
(`FloorSetup.FitsExactly`). Window shapes, transforms,
psychoacoustics and the block-size search are arbitrary inputs. Sample values in the overlap-add, the averages
of the bitrate manager and the floor table are `real`. Integers are unbounded except where machine words are
the point (markers and codewords are 32 bits wide, pixels four lanes wide).

Some things the proofs brought out:

* `_make_words` accepts a tree exactly when its Kraft sum is 1, or when no entry is used, or when the caller
  says that one is. On the encode side it is never told so, and a book with one used entry is refused.
* The list of codeword lengths with one unused entry is written exactly like one entry of length 32, so it
  does not come back (`StaticBook.LoneUnusedEntry`).
* The reader's guard against short packets needs exactly seven more bits after a list
  (`StaticBook.GuardNeedsSeven`); the packets that follow a book always have them.
* Book 255 cannot be a floor's sub-book: its number plus one does not fit eight bits (`FloorSetup.SubBookReadBack`).
* The reader of floors never compares the number of posts with the 63 that its tables have room for. An accepted
  floor fits them exactly if its partitions have no more values than that, always so with at most 7 partitions or
  6 range bits (`FloorSetup.FitsExactly`); one with 250 posts is accepted too (`FloorSetup.WideOverruns`).
* The reader of residues does not look at the dimensions of stage books. The encoder writes as many vectors as
  there are in a partition, the decoder reads on until it has passed its end: the same number, and inside the
  partition, exactly if the dimension divides the partition's size (`Residue.ReadsIsFill`,
  `ResidueInverse.StaysInside`). A setup that is accepted, and overruns, is `ResidueLook.OddOverruns`; those that
  do not are told apart by `ResidueLook.AcceptedTiles`, and need no more room than the block has
  (`ResidueLook.AcceptedFits`).
* The exhaustive search of `local_book_besterror` looks at a ninth component exactly if there are as many entries
  as eight digits can count, which there always are in a book of dimension 8, the largest its comment allows
  (`Lattice.SearchOverruns`). Such a book can only be used if every point of its grid has a codeword.
* The end of input can be marked a second time, with the padding counting as input from then on, exactly while the
  centre has not passed the end; after that the granule position falls behind (`Analysis.EofAgain`).
* The check in `vorbis_analysis_blockout` that enough input is there is about the next block. For the block it
  lets out it is enough exactly if that is not a long block before a short one less than a third its size
  (`Analysis.GuardCovers`). Such a block is whole all the same, because the check made one block earlier asked
  for just that (`Analysis.GuardBefore`); so every block holds the stream's samples, all of them.
* `vorbis_synthesis_lapout` after a single block since a restart moves the cursor along with samples that are
  not there, and loses the front of the block's second half unless both windows are long or the two sizes are
  equal (exactly then it does not: `Synthesis.FirstWhole`). A second call in a row moves the samples up again,
  and drops as many of them as the gap is wide.
* `vorbis_synthesis_read` before the first block counts the cursor, at -1, as a position, and can be made to
  take samples that are not there; the state is then no longer one that a stream can be in.
* The bit reservoir does its job exactly from 7 bits up (`Bitrate.SevenBits`).
* The direct path of `local_book_besterror` takes off what the decoder will put back exactly when every
  component is in range (`Lattice.DirectExact`). A component below the grid is even coded as the largest step.
* A cascade of residue stages is exact if and only if each vector its steps code by the direct path is within
  the grid of the book used at that step (`Cascade.RunExact`). It is enough that the first grid of each class
  reaches the samples, and each later one half a step of the one before, all but the last being full
  (`Cascade.ScheduleCovered`); then a full last book leaves at most half of its step.
* `vorbis_book_decodevv_add` starts on channel 0 whatever the offset, which is right exactly when the offset is a
  multiple of the channel count (`Residue2.StartsAtPlace`).

## Model

| member | source | states |
|---|---|---|
| CodeTree.CanonicalUnique | jni/libvorbis/sharedbook.c:73-126 | lengths alone determine the codewords: two canonical assignments agree on every used entry |
| Markers.MarkerIsLeftmost | jni/libvorbis/sharedbook.c:82-95 | the marker of a depth names a free node, and every node of that depth to its left is taken |
| Markers.PlacedDescribes | jni/libvorbis/sharedbook.c:97-123 | after an entry is placed, the odd markers, deeper ones further left, still describe exactly the free leaves |
| SharedBook.PassesPlace | jni/libvorbis/sharedbook.c:97-123 | the two passes over the 33 cells, up and then down, carry out one placement and keep the cells' invariant |
| SharedBook.RejectIsRight | jni/libvorbis/sharedbook.c:89-94 | the length test refuses an entry only when the lengths claim more than the whole tree |
| SharedBook.OverfullBlocks | jni/libvorbis/sharedbook.c:89-94 | once codewords of length 32 have overrun a full tree, which the length test cannot see, the final check refuses it |
| SharedBook.PlaceAll | jni/libvorbis/sharedbook.c:79-126 | the first loop, for every list of lengths: a refusal means the Kraft sum exceeds 1, otherwise the words are canonical so far |
| SharedBook.SettledIffFull | jni/libvorbis/sharedbook.c:133-139 | the mask test passes exactly when nothing was placed or no free leaf is left |
| SharedBook.ReverseAll | jni/libvorbis/sharedbook.c:141-155 | every listed word ends up bit-reversed in the slot of its entry |
| SharedBook.MakeWords | jni/libvorbis/sharedbook.c:73-158 | words come back if and only if one entry is declared, none is used, or the Kraft sum is exactly 1; then they are canonical and listed bit-reversed, packed to the used entries or one slot per entry |
| WordBits.EveryBitMirrored | jni/libvorbis/sharedbook.c:299-305 | five masked swaps of a 32-bit word move every bit to the mirrored place |
| WordBits.ReversingTwice | jni/libvorbis/sharedbook.c:299-305 | the swaps undo themselves |
| WordBits.ReverseMirrors | jni/libvorbis/sharedbook.c:299-305 | the arithmetic reversal used in the proofs is the same mirror image, for any width |
| WordBits.SwapsReverse | jni/libvorbis/sharedbook.c:299-305 | the number of a swapped word is the arithmetic reversal of the word's number |
| PrefixMatch.PrefixFree | jni/libvorbis/sharedbook.c:84-95 | no used codeword is a prefix of another |
| PrefixMatch.MatchUnique | jni/libvorbis/codebook.c:296-341 | a packet starts with at most one codeword |
| PrefixMatch.LongEnoughMatches | jni/libvorbis/codebook.c:296-341 | in a full tree every packet of at least 32 more bits starts with a codeword |
| PrefixMatch.MatchIffOwner | jni/libvorbis/codebook.c:321-336 | a codeword is a prefix of the bits looked at exactly when the leaf they lead to lies in its span |
| DecodeTables.FloorOwns | jni/libvorbis/codebook.c:321-330 | in a full tree the greatest sorted codeword at or left of a leaf owns it |
| DecodeTables.FloorMatches | jni/libvorbis/codebook.c:321-340 | the bisection's answer is the prefix match if its codeword is no longer than what was read, and otherwise no codeword matches |
| DecodeTables.HintsBracket | jni/libvorbis/codebook.c:301-313 | where the first table holds no direct hit, the leaf looked for lies in that cell's span, so a cell's bounds enclose it |
| BuildTables.SortEntries | jni/libvorbis/sharedbook.c:340-375 | codewords end up left-aligned and in increasing order, with entry numbers and lengths carried along, none lost and none twice |
| BuildTables.FillShort | jni/libvorbis/sharedbook.c:385-393 | every cell whose bits start with a short codeword names it, and no other cell is touched; `longest` bounds every length |
| BuildTables.HintsAreGood | jni/libvorbis/sharedbook.c:404-417 | bounds clamped to 15 bits each still enclose the codeword that every packet landing on the cell starts with |
| BuildTables.FillHints | jni/libvorbis/sharedbook.c:397-421 | the cells left over get such bounds, which makes the first table complete |
| BuildTables.BuildAll | jni/libvorbis/sharedbook.c:339-422 | all tables are built, exactly when one entry is used or the Kraft sum is 1 |
| ValueList.ListVector | jni/libvorbis/sharedbook.c:220-228 | the running divisor and the last component give each component of an entry's vector, for values shared or listed, in sequence or not |
| ValueList.ValueFrom | jni/libvorbis/sharedbook.c:215-250 | each component is the size of one listed value times the step, plus the minimum, on top of the component before it in a sequence and by itself otherwise; the value stands at `j * dim + k` in an explicit list, and where dividing by the `k`-th power of the list's length leads in a shared one |
| ValueList.SequenceRuns | jni/libvorbis/sharedbook.c:217-226 | in a sequence a component is the step times all sizes up to it, and as many minimums |
| ValueList.Unquantize | jni/libvorbis/sharedbook.c:196-258 | the vectors of the used entries stand at the sorted places of their codewords |
| ValueList.GridIsListed | jni/libvorbis/sharedbook.c:209-232 | for a grid's values the list is the very grid that the encoder searches |
| ValueList.AcceptedServes | jni/libvorbis/codebook.c:225-258 | a book that the header reader accepts has values for all its vectors |
| Codebook.DecodeBook.InitDecode | jni/libvorbis/sharedbook.c:313-428 | the book is set up if and only if at most one entry is used or the Kraft sum is exactly 1; otherwise it is left empty; where there are values, the list holds at each codeword's place the vector of its entry |
| Codebook.DecodeBook.FirstStage | jni/libvorbis/codebook.c:299-313 | a direct hit is the right answer, otherwise the bisection starts with the answer between its ends |
| Codebook.LookUpTo | jni/libvorbis/codebook.c:315-319 | near the end of a packet, looks at exactly as many bits as are left |
| Codebook.Bisect | jni/libvorbis/codebook.c:325-330 | ends at the last codeword at or left of the word looked for |
| Codebook.DecodeBook.DecodePackedEntryNumber | jni/libvorbis/codebook.c:296-341 | first table, hints and bisection together give the sorted position of the one codeword that the packet starts with, skipping exactly its length, or -1 when there is none |
| Codebook.DecodeBook.Decode | jni/libvorbis/codebook.c:358-367 | for a full tree: the entry whose codeword is a prefix of the rest of the packet, and -1, at the end of the packet, exactly when none is; for a book with one used entry that entry, whatever bits there are, and -1 exactly when fewer are left than it is long; -1 for an empty book |
| Codebook.EncodeBook.InitEncode | jni/libvorbis/sharedbook.c:283-297 | codewords are there if and only if no entry is used or the Kraft sum is exactly 1 |
| Codebook.EncodeBook.Encode | jni/libvorbis/codebook.c:274-278 | appends the codeword of an entry, root to leaf, and nothing for a number outside the book |
| RoundTrip.FrontIsOnlyMatch | jni/libvorbis/codebook.c:274-278 | whatever follows an entry's bits, that entry and no other is found at the front |
| RoundTrip.DecodeNext | jni/libvorbis/codebook.c:358-367 | from any book and any packet a used entry, or -1 at the end of the packet or from an empty book; where an entry's codeword stands next, that entry, and just its bits are consumed |
| Phrases.HeardIsSpelled | jni/libvorbis/codebook.c:296-341 | from a full book, the entry read from any packet is the one whose codeword stands at its front, no other entry can be read there, and what is left is what follows the codeword |
| RoundTrip.RoundTrip | jni/libvorbis/codebook.c:274-367 | for every length list with Kraft sum 1, entries written with the encode-side book come back from the decode-side book from exactly the same bits, whatever stands before and after |
| QuantVals.RootUnique | jni/libvorbis/sharedbook.c:166-169 | only one number has its `dim`-th power at most `entries` and the next one's above |
| QuantVals.Maptype1Quantvals | jni/libvorbis/sharedbook.c:163-189 | from any non-negative guess the search ends, at that number |
| QuantVals.NoRootOfZero | jni/libvorbis/sharedbook.c:172-188 | in dimension 0 no number meets the search's condition |
| StaticBook.PackLengths | jni/libvorbis/codebook.c:39-93 | writes the lengths in the ordered, the dense or the tagged form, as the list allows |
| StaticBook.LoneUnusedEntry | jni/libvorbis/codebook.c:42-65 | one unused entry and one entry of length 32 are written alike |
| StaticBook.WritableUnlessLone | jni/libvorbis/codebook.c:42-65 | the ordered form, which needs a used first entry, is wrong for one list only: that of a lone unused entry |
| StaticBook.RunFitsTree | jni/libvorbis/codebook.c:208-211 | in a list that a tree can hold, a run of one length never trips the reader's check on its number |
| StaticBook.GuardNeedsSeven | jni/libvorbis/codebook.c:170-171 | the guard on remaining bytes passes every list that is there, wherever it stands, exactly when seven or more bits follow it |
| StaticBook.UnpackLengths | jni/libvorbis/codebook.c:164-222 | on any packet, accepted lengths are at most 32, as many as asked for, and what the packet says in the form that its first bits choose: runs of rising length, a tag and five bits each, or five bits each; a written list comes back, in all three forms, from exactly its bits |
| StaticBook.Pack | jni/libvorbis/codebook.c:30-145 | writes the sync word, sizes, lengths and mapping of a book |
| StaticBook.Unpack | jni/libvorbis/codebook.c:149-270 | whatever the packet holds, an accepted book is in range, and every number of it stands in its place: sync word, dimension and entries in the first 64 bits, the lengths in one of the three forms, the mapping behind them; a written book comes back from exactly its bits, but for the signs of its values |
| FloorSetup.SubBookReadBack | jni/libvorbis/floor1.c:115-116 | a sub-book number is read back as itself if and only if it is below 255 |
| FloorSetup.CheckApart | jni/libvorbis/floor1.c:179-188 | sorting and comparing neighbours accepts a post list if and only if no position comes up twice |
| FloorSetup.ValidIsApart | jni/libvorbis/floor1.c:163-188 | a post list of the range read is one the floor coder can use exactly when its positions are distinct |
| FloorSetup.Pack | jni/libvorbis/floor1.c:94-128 | writes partitions, classes up to the greatest in use, multiplier, range and posts |
| FloorSetup.Unpack | jni/libvorbis/floor1.c:134-195 | whatever the packet holds, an accepted floor is in range, with distinct posts and only books there are, and every number of it stands in its place: the class of each partition, the classes one by one, the multiplier, the range and the posts; a written floor comes back, but for books that no class uses |
| FloorSetup.FitsExactly | jni/libvorbis/backends.h:58-72 | an accepted floor has at most 250 posts, and fits the source's tables exactly if its partitions have at most 63 values, as they do with at most 7 partitions or 6 range bits |
| FloorSetup.WideOverruns | jni/libvorbis/floor1.c:163-188 | a floor that the reader accepts, with 250 posts |
| Floor0Setup.CheckBooks | jni/libvorbis/floor0.c:91-96 | the loop accepts a list of books exactly if each is there, has values, and vectors of at least one component |
| Floor0Setup.Unpack | jni/libvorbis/floor0.c:74-102 | whatever the packet holds, an accepted floor of type 0 is in range, names only such books, and has its numbers in their fixed places; what is written in this form comes back |
| ResidueSetup.ShortForm | jni/libvorbis/res0.c:189-196 | a cascade below 8 in four bits is the same as three bits and a clear mark |
| ResidueSetup.CheckPhrases | jni/libvorbis/res0.c:253-258 | the loop with its early exit accepts exactly when `partitions` to the power `dim` is at most the number of phrases |
| ResidueSetup.Pack | jni/libvorbis/res0.c:174-201 | writes range, grouping, phrase book, cascades in 3+1 or 3+1+5 bits, and one book for each stage of each class |
| ResidueSetup.Unpack | jni/libvorbis/res0.c:204-266 | whatever the packet holds, an accepted residue names only books there are that have values, and a phrase book large enough, and has its numbers in their places: begin, end, grouping, partitions and phrase book in the first 86 bits, then each class's stages, then the books; a written one comes back |
| ResidueLook.LookClass | jni/libvorbis/res0.c:286-300 | each stage of a class gets the next book of the list, and stages that the class does not have get none |
| ResidueLook.ServingApart | jni/libvorbis/res0.c:286-300 | different stages are served from different places of the list, later ones further on |
| ResidueLook.ServesPlace | jni/libvorbis/res0.c:286-300 | and every place of the list serves some stage of some class |
| ResidueLook.Prepare | jni/libvorbis/res0.c:268-325 | every class has its books, there are as many stages as the class with most of them has, and the map from words to classes is complete |
| ResidueLook.AcceptedIsReadable | jni/libvorbis/res0.c:204-326 | an accepted setup is all that the decoder asks for, if the vectors of its books have at least one component |
| ResidueLook.AcceptedTiles | jni/libvorbis/res0.c:204-266 | the vectors of its stage books fill the partitions exactly if the dimension of every listed book divides their size |
| ResidueLook.AcceptedFits | jni/libvorbis/res0.c:657-685 | then a block's channels have room for all that any packet makes the decoder read, and nothing outside the residue's part of the block changes |
| ResidueLook.OddOverruns | jni/libvorbis/res0.c:204-266 | a setup that is accepted, with partitions of 4 samples and a book of dimension 3: one vector is written, two are read, and a channel of 4 samples has no room for them |
| MappingSetup.Pack | jni/libvorbis/mapping0.c:58-99 | writes submaps, coupling in just the bits that tell channels apart, and the channels' submaps only where there is a choice |
| MappingSetup.Unpack | jni/libvorbis/mapping0.c:102-155 | whatever the packet holds, an accepted mapping couples two different channels that there are in each step and refers only to floors and residues there are; every number stands in its place, in each step the channel of the magnitude before that of the angle, for each submap its floor before its residue; a written one comes back |
| SetupHeader.Pack | jni/libvorbis/info.c:491-545 | writes every book, a time placeholder, every floor, residue, mapping and mode, and the end mark; refuses exactly if there is a floor of type 0 |
| SetupHeader.Unpack | jni/libvorbis/info.c:272-347 | whatever the packet holds, everything in an accepted setup refers only to what the setup has, and its parts stand one behind the other: the books, the time settings, floors, residues, mappings and modes, each list behind its count; a written setup comes back from exactly its bits, every guard passing |
| SetupHeader.RoundTrip | jni/libvorbis/info.c:272-545 | a setup with floors of type 1, written as a packet of whole bytes and read after its preamble, is equal but for value signs and unused class books, with less than a byte left over |
| Analysis.VorbisAnalysis.Wrote | jni/libvorbis/block.c:505-518 | input is appended, to the buffer and to the stream behind its first centre, and refused unchanged when it cannot have fitted; after the end of input it is appended too, but no longer counted |
| Analysis.VorbisAnalysis.WroteEof | jni/libvorbis/block.c:464-504 | three long blocks are added behind the input, and the end is remembered where the input ends; marked again before the centre has passed it, the end moves behind the earlier padding, which then counts as input |
| Analysis.EofAgain | jni/libvorbis/block.c:464-504 | the end can be marked again, with the granule position still right, exactly while the centre has not passed it |
| Analysis.NeverStarves | jni/libvorbis/block.c:562-574 | after the end of input, however block sizes are chosen, there is enough for the block and the one after it |
| Analysis.GuardCovers | jni/libvorbis/block.c:562-574 | passing the check for enough input means that the block itself is all there, for every buffer length, exactly unless a long block stands before a short one less than a third its size |
| Analysis.GuardBefore | jni/libvorbis/block.c:562-574 | the check made for one block means that the next one will be all there when it is cut |
| Analysis.CutGood | jni/libvorbis/block.c:579-679 | a block cut at the current centre holds the stream's samples at that centre, follows the block before it, and is marked last, with granule position `total`, exactly when the end is reached; otherwise the books balance after the shift |
| Analysis.VorbisAnalysis.Blockout | jni/libvorbis/block.c:524-683 | a block comes out if and only if the stream is started and not done, and either the end of input was seen or the search answered and the next block fits; it has the sizes decided on, the next one being long exactly if the search answers long and there are two sizes, and holds the stream's samples around its centre, every one of them; the last one carries the number of samples written |
| Analysis.FinishStream | jni/libvorbis/block.c:524-683 | after the end of input, for any answers of the envelope search, repeated calls end with the last block, and the blocks make a whole stream: centres a quarter of each size apart, positions counted, one block marked; the next block is long exactly where the search answers long and there are two sizes |
| Reconstruction.CrossRestores | jni/libvorbis/block.c:778-778 | under both slopes of a power-complementary window a sample comes back, and what is added of its mirror image cancels |
| Reconstruction.Restores | jni/libvorbis/block.c:769-805 | perfect reconstruction for every two block sizes: if the old half holds a signal under the falling slope and the new half under the rising one, with mirror images or without, their overlap-add is that signal |
| Reconstruction.BlockinRestores | jni/libvorbis/block.c:769-833 | so what a block makes available in the decoder, before it is trimmed, is the signal between its centre and the centre before it |
| Reconstruction.ApplyWindow | jni/libvorbis/window.c:2102-2135 | the encoder's window puts a block under just those slopes: silence, rising slope, flat, falling slope, silence, each where the neighbours' sizes ask for it |
| Synthesis.OverlapInto | jni/libvorbis/block.c:769-805 | the four overlap loops compute plain windowed overlap-add of an old second half and a new first half, and touch nothing else |
| Synthesis.LapLongShort | jni/libvorbis/block.c:779-786 | a long half before a short one is flat up to the short slope, then crosses over |
| Synthesis.LapShortLong | jni/libvorbis/block.c:788-797 | a short half before a long one crosses over, then is flat |
| Synthesis.NonePending | jni/libvorbis/block.c:729-730 | the guard of `blockin` refuses exactly while samples are pending |
| Synthesis.VorbisSynthesis.Blockin | jni/libvorbis/block.c:721-934 | refused, with nothing changed, while samples wait; otherwise what becomes available is the overlap-add of the half before and the new half, trimmed as the granule count says, and nothing after a restart |
| Synthesis.VorbisSynthesis.CountGranules | jni/libvorbis/block.c:848-927 | the two counters move and the two ends are trimmed as one function of the clock, the block's mark and the samples available, never by more than there are |
| Synthesis.MarkRules | jni/libvorbis/block.c:848-927 | a mark sets the position and without one it counts on once known; samples are cut only where a mark lies before the position counted up to, from the end in the last block, from the front where no position was known, and as much as there is of the excess |
| Synthesis.FirstMark | jni/libvorbis/block.c:857-893 | a stream that starts before place 0 loses, at its first mark, what lies before that place, as far as it is in that block |
| Synthesis.GapForgets | jni/libvorbis/block.c:735-855 | after a gap in the packet numbers the block is neither counted nor cut and its mark is the position; without a gap nothing is forgotten |
| Synthesis.VorbisSynthesis.Pcmout | jni/libvorbis/block.c:937-950 | exposes exactly the samples not yet taken |
| Synthesis.VorbisSynthesis.Read | jni/libvorbis/block.c:952-956 | takes samples from the front, and refuses to take more than there are; before the first block it accepts up to one more than the cursor allows, and exactly then the state is spoilt |
| Synthesis.VorbisSynthesis.Restart | jni/libvorbis/block.c:685-706 | from any state: nothing pending, both counts lost |
| Synthesis.SwapGood | jni/libvorbis/block.c:985-1000 | swapping the ring's halves keeps pending samples and newest half |
| Synthesis.MoveGood | jni/libvorbis/block.c:1002-1025 | moving the finished samples up makes them and the newest half one piece, in order, after two or more blocks |
| Synthesis.FirstWhole | jni/libvorbis/block.c:1002-1034 | after one block the half exposed is whole if and only if both windows are long or the sizes are equal |
| Synthesis.VorbisSynthesis.Lapout | jni/libvorbis/block.c:963-1036 | exposes the unread samples followed by the newest second half, without taking any; after a single block, that half less its first `Gap` samples; called again, what it exposed before less as many samples as the gap is wide, from where the newest half begins |
| EndToEnd.LappedLength | jni/libvorbis/block.c:829-833 | the overlap-add of the first blocks of a stream is as long as the centre of the last of them |
| EndToEnd.TickKeeps | jni/libvorbis/block.c:848-927 | a block that is not the last is not trimmed, whether its mark is seen or hidden |
| EndToEnd.TickTrims | jni/libvorbis/block.c:872-921 | the last block loses exactly what lies past the stream's end |
| EndToEnd.Playback | jni/libvorbis/block.c:721-956 | a whole stream, drained after every block, any positions but the last hidden, plays as the first `n` samples of the overlap-add of all its blocks; at half rate, as the first `n / 2` of them, rounded up |
| EndToEnd.SampleExact | jni/libvorbis/block.c:460-956 | from the end of input to the last sample: any block decisions, any codec in between, any hidden marks but the last, and as many samples come out as were written, or half as many, rounded up, at half rate; they are the overlap-add of the packets made of the stream's blocks |
| Transparency.LappedRestores | jni/libvorbis/block.c:769-833 | overlap-add of packets that hold a signal under their windows is that signal, at either rate, whatever the sizes of the blocks |
| Transparency.PlaysBack | jni/libvorbis/block.c:460-956 | from one end to the other at full rate: a codec that keeps each block under its window, mirror images included, makes the decoder play exactly the samples written, whatever block sizes the search asks for |
| Bitrate.LevelStep | jni/libvorbis/bitrate.c:193-219 | a packet that fits leaves the level between 0 and the reservoir, and the level's change bounds the packet against both targets |
| Bitrate.LevelDrawn | jni/libvorbis/bitrate.c:194-219 | between the limits the level goes as near to the desired one as the block can account for, and strictly nearer wherever the block leaves room; beyond a limit it moves by just the excess or the shortfall |
| Bitrate.Leaks | jni/libvorbis/bitrate.c:200-218 | over any stretch between the limits a level above the desired one falls by all that the blocks leave of the maximum, one below it rises by all they have over the minimum, until it is the desired one, which it then stays |
| Bitrate.BitsperNear | jni/libvorbis/bitrate.c:36-38 | the bits of a short block are the configured rate's share for half a block of samples, rounded to nearest |
| Bitrate.TargetsPay | jni/libvorbis/bitrate.c:34-48 | a block's minimum and maximum are the configured rates' shares for as many short blocks as it makes up, and the desired level is the configured part of the reservoir, rounded down |
| Bitrate.EnforceMin | jni/libvorbis/bitrate.c:141-151 | stops at the first candidate from the chosen one up that does not drain the reservoir, or past the last |
| Bitrate.EnforceMax | jni/libvorbis/bitrate.c:153-163 | stops at the first candidate from the chosen one down that does not overfill the reservoir, or below the first |
| Bitrate.Settle | jni/libvorbis/bitrate.c:141-191 | the candidate is where the two loops lead; the packet that goes out always fits; one that fits as it is goes out as it is; it is cut only if even the smallest candidate overfills, padded only if the candidate would drain, and never by a byte more than needed |
| Bitrate.SevenBits | jni/libvorbis/bitrate.c:168-191 | with both limits in force a fitting size of whole bytes exists for every level if and only if the reservoir has at least 7 bits |
| Bitrate.Seek | jni/libvorbis/bitrate.c:118-130 | the first candidate in the direction that brings the average back, never the other direction |
| Bitrate.Drift | jni/libvorbis/bitrate.c:102-137 | the floater moves toward the candidate sought, no faster than the slew limit, not at all when the average is where it should be, and still names a candidate |
| Bitrate.LimitShortens | jni/libvorbis/bitrate.c:132-135 | limiting the slew never lengthens or reverses a move |
| Bitrate.SlewedExactly | jni/libvorbis/bitrate.c:132-136 | the floater moves all the way where that is within 15 candidates in the damping time, and exactly that far where it is not |
| Bitrate.FloaterInRange | jni/libvorbis/bitrate.c:132-136 | the floater stays within half a step of the candidates, so rounding it names one |
| Bitrate.BitrateManager.AddBlock | jni/libvorbis/bitrate.c:74-228 | unmanaged, a second block is refused while one waits; managed, the floater drifts as the candidates ask, one fitting packet is settled on from there, as it is if it fits, and the run, the level and the average account for it |
| Bitrate.BitrateManager.FlushPacket | jni/libvorbis/bitrate.c:230-253 | hands out the packet settled on, or the middle one if unmanaged, once |
| Bitrate.WindowBound | jni/libvorbis/bitrate.c:193-219 | over any stretch of any run, bits emitted differ from the summed targets by a reservoir at most, above and below |
| Bitrate.BitrateManager.EveryWindow | jni/libvorbis/bitrate.c:74-228 | the same for every window of what a manager has emitted so far |
| Bitrate.BitrateManager.AveragePays | jni/libvorbis/bitrate.c:104-104 | the bits a block should have on average are the configured average rate's share for it |
| Bitrate.BitrateManager.EveryReturn | jni/libvorbis/bitrate.c:194-219 | over any stretch of what a manager has emitted between the limits, its level comes back to the desired one as fast as the blocks leave room, and stays there |
| Lines.PointBetween | jni/libvorbis/floor1.c:272-286 | a point of a line lies between its ends and meets them |
| Lines.LineStep | jni/libvorbis/floor1.c:379-386 | one step of the error accumulator keeps it in `[0, adx)` and stays on the line |
| Lines.OnLineIsPoint | jni/libvorbis/floor1.c:272-286 | an accumulator on the line is at the height that `render_point` gives, for either sign of slope |
| Lines.RenderLine0 | jni/libvorbis/floor1.c:391-418 | every bin of the line gets its `render_point` value, no other bin changes |
| Lines.RenderLine | jni/libvorbis/floor1.c:362-389 | every bin of the line is scaled once by the table entry at its `render_point` height, which is in the table; no other bin changes |
| Floor1.FindNeighbors | jni/libvorbis/floor1.c:246-267 | each post's neighbours are the closest positions on either side among the posts before it |
| Floor1.WrapUnwrap | jni/libvorbis/floor1.c:820-842 | folding a deviation stays in the code range, keeps 0 for "as predicted" and is undone by the decoder |
| Floor1.UnwrapWrap | jni/libvorbis/floor1.c:1020-1036 | every code of the range is the folding of one deviation that keeps the post in range |
| Floor1.SendPosts | jni/libvorbis/floor1.c:801-846 | the encoder's pass is `SendRun` on the posts and `Outs` on what is sent; FloorPosts.FlagsSent says which posts that leaves to be drawn |
| Floor1.ReceivePosts | jni/libvorbis/floor1.c:1012-1046 | the decoder's pass is `ReceiveRun` on whatever was received; FloorPosts.FlagsReceived and FloorPosts.ValuesReceived say which posts that leaves to be drawn, and where |
| Floor1.InStep | jni/libvorbis/floor1.c:804-846 | after any number of posts the decoder's posts are the encoder's, flags included |
| Floor1.SamePosts | jni/libvorbis/floor1.c:1012-1046 | from the values sent, the decoder rebuilds the encoder's final posts |
| Floor1.ValuesArrive | jni/libvorbis/floor1.c:815-844 | every post that was meant to be sent arrives with its own value |
| Floor1.FinalPostsOk | jni/libvorbis/floor1.c:804-846 | the final posts are in range and the first is never left out, so the curve can be drawn |
| FloorPosts.FlagsReceived | jni/libvorbis/floor1.c:1012-1046 | whatever is received, a post is left out of the curve exactly if it is no end, nothing was sent for it, and no later post for which something was sent was predicted from it |
| FloorPosts.FlagsSent | jni/libvorbis/floor1.c:804-846 | the encoder leaves out the same posts, by the values it sends |
| FloorPosts.ValuesReceived | jni/libvorbis/floor1.c:1012-1046 | every post stands where the line between its two neighbours passes, all heights as they are in the end, off by the deviation sent for it; the ends stand where they were sent |
| FloorPosts.PointOnLine | jni/libvorbis/floor1.c:272-286 | a predicted height is the line's, rounded toward the left end, and between the two |
| FloorPosts.CodesBySize | jni/libvorbis/floor1.c:820-842 | codes list the deviations by size, of two of one size the negative first |
| FloorPosts.QuantizeSteps | jni/libvorbis/floor1.c:779-796 | each multiplier rounds down to steps of 4, 8, 12 or 16, as many as 1024 takes, and keeps the flag |
| Floor1Curve.SortPosts | jni/libvorbis/floor1.c:219-228 | the post numbers in order of position, each once |
| Floor1Curve.CurveIsLines | jni/libvorbis/floor1.c:1072-1087 | at every bin the curve is the straight line between the nearest posts drawn on either side, at their heights held to 0..255 |
| Floor1Curve.HeightInTable | jni/libvorbis/floor1.c:1069-1080 | a valid post times the multiplier is in 0..255: for those the clamps never act |
| Floor1Curve.DrawMask | jni/libvorbis/floor1.c:936-958 | the encoder's mask is the curve, at every bin, once |
| Floor1Curve.ApplyCurve | jni/libvorbis/floor1.c:1063-1088 | whatever posts were decoded, every bin is scaled once, by the table entry at the height of the curve through them, which is in the table |
| Floor1Packet.ChooseBooks | jni/libvorbis/floor1.c:870-891 | each value gets the first sub-book that can code it, or the first of all if none can, and the choices make one number, lowest first |
| Floor1Packet.NoneBefore | jni/libvorbis/floor1.c:880-889 | no sub-book before the one chosen can code the value |
| Floor1Packet.FirstChoice | jni/libvorbis/floor1.c:998-1000 | masking and shifting that number gives the choices back in order |
| Floor1Packet.EncodeFloor | jni/libvorbis/floor1.c:768-934 | quantises, predicts and appends exactly the coded floor, with no bits for a value that no sub-book can code or that has no codeword, or the single bit that there is none |
| Floor1Packet.DecodeFloor | jni/libvorbis/floor1.c:968-1052 | on any packet a floor of the right size, or none, for an unset mark, at the end of the packet or from an empty book; its posts are `ReceiveRun` on what the packet says: the mark in the first bit, the two ends behind it, then for each partition the codeword for its choices and the codeword of each value in the sub-book that its bits of the choices name, lowest first; from a coded floor whose values all had codewords the encoder's final posts, and exactly its bits are consumed |
| FloorRoundTrip.Encode | jni/libvorbis/floor1.c:768-964 | the floor is coded and its curve drawn as the mask, or one bit and a mask of zeros |
| FloorRoundTrip.Apply | jni/libvorbis/floor1.c:1054-1093 | a decoded floor scales every bin, and without one every bin is silenced |
| FloorRoundTrip.RoundTrip | jni/libvorbis/floor1.c:768-1093 | a floor coded at one end and applied at the other: each bin is scaled by the table entry that the encoder's mask names, the packet is used up, and a floor without posts is silent on both sides |
| FloorRoundTrip.EquippedSends | jni/libvorbis/floor1.c:870-934 | any floor can be sent if, for each class in use, some sub-book reaches the largest value, the sub-books and the class book have all their codewords, and the class book has an entry for each combination of choices |
| Lattice.NextDigits | jni/libvorbis/res0.c:375-381 | counting up by one rolls over full digits, raises the next and leaves the rest |
| Lattice.Turn | jni/libvorbis/res0.c:375-381 | the sign-flipping odometer goes from the vector of one entry to that of the next |
| Lattice.TopIsLast | jni/libvorbis/res0.c:375-381 | all eight components are at the top at one entry exactly, the last that eight digits can name |
| Lattice.SearchOverruns | jni/libvorbis/res0.c:356-383 | the search comes to such an entry, and looks past its array, exactly if the book has that many entries; a book of dimension 8 always has |
| Lattice.SearchAll | jni/libvorbis/res0.c:356-383 | with fewer entries, the exhaustive search names a nearest used entry and holds its vector |
| Lattice.NearestIsNearest | jni/libvorbis/res0.c:362-374 | no used entry is nearer than the one that search names |
| Lattice.DirectExact | jni/libvorbis/res0.c:340-354 | the direct index and the vector subtracted agree if and only if every component is within half a step of the grid |
| Lattice.DirectNearest | jni/libvorbis/res0.c:340-354 | for components in range no point of the whole lattice is nearer |
| Lattice.TakenIsVector | jni/libvorbis/res0.c:329-391 | the entry chosen is used, and what is taken off is its vector exactly when the direct path was not taken or every component was in range |
| Lattice.BestIsNearest | jni/libvorbis/res0.c:329-391 | for components in range no used entry is nearer than the one chosen |
| Lattice.BestError | jni/libvorbis/res0.c:329-391 | returns that entry and leaves the vector less what was taken off, and nothing else changed, whenever the search is not needed or stays inside its array |
| PartitionWords.HornerUnique | jni/libvorbis/res0.c:584-590 | different classes make different words |
| PartitionWords.SplitWord | jni/libvorbis/res0.c:308-317 | divides a word into digits that make it up again |
| PartitionWords.BuildDecodemap | jni/libvorbis/res0.c:302-318 | the map gives for every word the digits it was made of, all words covered |
| PartitionWords.HornerDigit | jni/libvorbis/res0.c:584-590 | digit `k` of a word, by one division and one remainder, is the class that went into it at that place |
| PartitionWords.WordOfDigits | jni/libvorbis/res0.c:308-317 | and those digits make the word up again |
| PartitionWords.MapDigits | jni/libvorbis/res0.c:302-318 | looking any word up in the map gives its digits, the first partition's the highest |
| Residue.MakeWord | jni/libvorbis/res0.c:584-590 | classes as one mixed-radix word: digit `k` of it, counted from the highest, is the class of partition `i + k`, and 0 beyond the last partition |
| Residue.ClassInWord | jni/libvorbis/res0.c:584-590 | the word divided by the power of the number of classes that belongs to place `k`, and the remainder by that number, is the class of partition `i + k` |
| Residue.EncodePart | jni/libvorbis/res0.c:393-412 | vector by vector, as many as there are in the partition, takes the best entry off and appends its codeword |
| Residue.Forward | jni/libvorbis/res0.c:577-638 | words and partitions are coded stage by stage in the order of `AllSlots` (ResidueOrder says which that is), whatever codewords the books have, and the vectors keep what no stage took off |
| ResidueOrder.ScheduleSorted | jni/libvorbis/res0.c:577-638 | the steps go by stage, then by word, the words of all channels before their partitions, then by partition, then by channel, and none comes twice |
| ResidueOrder.ScheduleHas | jni/libvorbis/res0.c:577-638 | they are exactly these: in every stage each partition of each channel, and in the first a word for each channel at the start of every `dim` partitions |
| ResidueOrder.PartitionsTile | jni/libvorbis/res0.c:604-604 | partitions follow one another from the residue's begin on and leave less than a partition of it |
| Residue.RunPrefix | jni/libvorbis/res0.c:577-638 | later steps only add codewords, and never make up for an inexact one |
| Residue.ReadsIsFill | jni/libvorbis/codebook.c:396-404 | the decoder reads as many vectors as the encoder writes, and ends inside the partition, exactly if the book's dimension divides the partition's size; otherwise it reads one more |
| Residue.AddedBalances | jni/libvorbis/codebook.c:389-432 | adding the vectors of exact entries gives back what taking them off left out |
| Residue.DecodePart | jni/libvorbis/codebook.c:389-432 | on any packet adds the vectors of the entries it reads, one behind the other, all that pass the partition's end or as many as the packet holds, and changes no sample outside them; none from a book without codewords; what was written is what is read |
| ResidueInverse.GetWord | jni/libvorbis/res0.c:686-695 | on any packet the entry whose codeword stands next gives the classes that are its digits, first partition highest; one that is no word is refused; a word that was written gives its classes back |
| ResidueInverse.DigitDecides | jni/libvorbis/res0.c:698-703 | partition `from + k` is read with the book of digit `k` of the word entry read at `from`, by division and remainder |
| ResidueLayout.RunsThen | jni/libvorbis/res0.c:676-715 | what is replayed step by step can be put together: a finished run of steps and then another, finished or broken off, are one run |
| ResidueInverse.GetGroup | jni/libvorbis/res0.c:698-711 | on any packet the partitions of a word are read in turn, each with the book of its digit of the entries decoded: the vectors gain exactly the vectors of the entries whose codewords stand next in the packet, as far as it goes |
| ResidueInverse.StaysInside | jni/libvorbis/res0.c:657-715 | the decoder stays inside its partitions exactly if the vectors of every stage book fill one |
| ResidueInverse.TilesFit | jni/libvorbis/res0.c:657-715 | then channels as long as the residue have room for it, and no sample outside the residue is touched |
| ResidueInverse.Inverse | jni/libvorbis/res0.c:657-715 | on any packet, where the channels have room for what is read, what the channels gain is the replay of the schedule: each word's entry and each partition's vectors as their codewords come, with the book of the partition's digit, as far as the packet goes, and no sample outside the partitions changes, also where the residue is set up to end beyond the block; from a block coded in step every sample gains exactly what the encoder's stages took off it, and exactly the block's bits are consumed |
| Residue2.Interleave | jni/libvorbis/res0.c:788-795 | sample `t` of channel `c` is at place `t * channels + c` |
| Residue2.StartsAtPlace | jni/libvorbis/codebook.c:457-463 | the first value goes to its place exactly when the offset is a multiple of the channel count |
| Residue2.PlacesAsked | jni/libvorbis/codebook.c:462-463 | the places read from are those asked for exactly when both ends lie on channel 0 |
| Residue2.AddAcross | jni/libvorbis/codebook.c:467-475 | adding a vector across the channels is adding it in one piece to their interleaving |
| Residue2.DecodeAcross | jni/libvorbis/codebook.c:457-479 | on any packet and for any offset adds the vectors it reads to the interleaving of the channels, from the sample of all channels that the offset falls in until the last whole sample is passed, and changes nothing outside; what was written is what is read |
| ResidueInverse.OneMixture | jni/libvorbis/res0.c:785-795 | the channels have one interleaving only |
| ResidueInverse.InverseAcross | jni/libvorbis/res0.c:805-858 | on any packet what the interleaving of the channels gains is the replay of the schedule, and no sample changes whose interleaved place is outside the partitions; from a block coded in step, with partitions on channel 0, each sample of each channel gains exactly what was taken off its place in the interleaved vector; silent blocks, and residues that begin beyond the block, read nothing and change nothing |
| Cascade.VectorsExact | jni/libvorbis/res0.c:393-412 | the entries of a partition account for exactly what was taken off it if and only if each vector, as it was given, is within the grid or not coded by the direct path |
| Cascade.RunExact | jni/libvorbis/res0.c:577-638 | a run of the encoder is exact if and only if every vector coded by the direct path is within the grid of the book used at that step |
| Cascade.WithinReach | jni/libvorbis/res0.c:340-354 | a sample no further from zero than a grid's reach is in range, and rounding leaves at most half a step of it |
| Cascade.BeyondReach | jni/libvorbis/res0.c:340-354 | the next sample above that reach is out of range |
| Cascade.StagesInTurn | jni/libvorbis/res0.c:577-638 | the nested loops take each partition of each channel through the stages in order, each exactly once, with words at the multiples of the word length only |
| Cascade.TokensKnown | jni/libvorbis/res0.c:577-638 | with codewords for the groups of classes that start a word, and full trees in the stage books of the classes in use, everything written can be decoded |
| Cascade.ScheduleCovered | jni/libvorbis/res0.c:577-638 | if vectors fill partitions, the first grid of each class reaches the partition's largest sample and each later one half a step of the one before, all but the last being full, the whole block is exact, and a partition whose books are all full is left with at most half a step of the last one |
| ResidueRoundTrip.RoundTrip | jni/libvorbis/res0.c:657-769 | type 1 both ways, for a block whose stages are exact, decoded in step: each output gains its sample less what no stage took off it, the packet is used up, and what is left is bounded as above where the grids reach the samples |
| ResidueRoundTrip.ForwardAcross | jni/libvorbis/res0.c:781-801 | codes the interleaving of the channels as one vector, nothing if all are silent, the channels unchanged |
| ResidueRoundTrip.RoundTripAcross | jni/libvorbis/res0.c:781-858 | type 2 both ways, for such a block of the interleaved vector: decoded into silent channels, each sample comes back less what no stage took off it, the packet is used up, and what is left is bounded as above where the grids reach the samples |
| Lanes.DivOneNearest | jni/pixman-extra/pixman-combine32.h:31-42 | the shifts divide by the largest component rounding to nearest, for every lane width and every product of two components |
| Lanes.Complement | jni/pixman-extra/pixman-combine32.h:41-42 | two parts of a whole multiple, each rounded, make up that multiple again |
| Packed.Constants | jni/pixman-extra/pixman-combine64.h:6-20 | both headers' masks and halves are the ones the lane formulas give for 8 and 16 bits |
| Packed.RbMul | jni/pixman-extra/pixman-combine32.h:52-59 | two lanes are scaled at once, each as if alone, whatever stands between them |
| Packed.SaturateLane | jni/pixman-extra/pixman-combine32.h:64-70 | subtracting the carries from the mask, or-ing and masking saturates a lane |
| Packed.RbAdd | jni/pixman-extra/pixman-combine32.h:64-70 | two lanes are added at once, each saturating on its own |
| Packed.RbMulRb | jni/pixman-extra/pixman-combine32.h:75-83 | two lanes are multiplied at once by two others |
| Packed.Un8x4Mul | jni/pixman-extra/pixman-combine32.h:88-100 | four components scaled, lane by lane |
| Packed.Un8x4MulAdd | jni/pixman-extra/pixman-combine32.h:105-121 | four components scaled and added, lane by lane |
| Packed.Un8x4MulAddMul | jni/pixman-extra/pixman-combine32.h:126-144 | two pixels scaled and added, lane by lane |
| Packed.Un8x4Mul4 | jni/pixman-extra/pixman-combine32.h:149-163 | componentwise product, lane by lane |
| Packed.Un8x4Mul4Add | jni/pixman-extra/pixman-combine32.h:168-186 | componentwise product and sum, lane by lane |
| Packed.Un8x4Mul4AddMul | jni/pixman-extra/pixman-combine64.h:191-211 | componentwise product plus a scaled pixel, lane by lane |
| Packed.Un8x4Add | jni/pixman-extra/pixman-combine64.h:216-230 | saturating sum, lane by lane |
| Blend.RawBounds | jni/pixman-extra/pixman-combine32.c:572-782 | for every integer separable mode and premultiplied components, 0 <= B <= sa * da, for components of any size |
| Blend.UnionAlpha | jni/pixman-extra/pixman-combine32.c:519-529 | the three rounded products that make up the alpha are together the union of the coverages, rounded once |
| Blend.BlendKeeps | jni/pixman-extra/pixman-combine32.c:506-534 | in every such mode no lane carries into the next, the result is premultiplied, and its alpha is Mask - round((Mask - sa)(Mask - da) / Mask) |
| Blend.OverExact | jni/pixman-extra/pixman-combine32.c:175-193 | OVER never saturates |
| Blend.AtopAlpha | jni/pixman-extra/pixman-combine32.c:302-325 | ATOP leaves the destination's alpha exactly as it is |
| Blend.MultiplyAlpha | jni/pixman-extra/pixman-combine32.c:453-476 | MULTIPLY never saturates, and its alpha is that of the blend modes |
| Blend.OpKeeps | jni/pixman-extra/pixman-combine32.c:151-476 | every operator keeps premultiplied pixels premultiplied and components in range |
| Blend.OpFits | jni/pixman-extra/pixman-combine32.c:151-476 | every operator but the blend modes keeps components in range for any pixels |
| BlendLaws.DarkenLighten | jni/pixman-extra/pixman-combine32.c:606-630 | darken is at most both products and one of them, lighten at least both and one of them, and difference is lighten less darken |
| BlendLaws.ScreenExclusion | jni/pixman-extra/pixman-combine32.c:572-782 | what screen leaves of full coverage is the product of what the two leave, and exclusion is screen less the product of the two |
| BlendLaws.OverlayHardLight | jni/pixman-extra/pixman-combine32.c:588-701 | overlay multiplies by twice a destination below half its alpha and screens with the excess of any other; hard light is overlay with source and destination exchanged |
| BlendLaws.Dodge | jni/pixman-extra/pixman-combine32.c:644-656 | dodge is the whole number of times that what the source leaves goes into the destination, held to full, and nothing or full where the source leaves nothing |
| BlendLaws.Burn | jni/pixman-extra/pixman-combine32.c:670-682 | what burn leaves of full coverage is dodge on the complements |
| BlendLaws.OpaqueBlend | jni/pixman-extra/pixman-combine32.c:506-534 | of opaque pixels only the blend is left: exactly the smaller component for darken, the larger for lighten, the distance for difference |
| BlendLaws.BlendByRegion | jni/pixman-extra/pixman-combine32.c:506-534 | every mode shows the source where it is alone, the destination where it is alone, and the blend where both are, within a rounding for each |
| BlendLaws.RegionByRegion | jni/pixman-extra/pixman-combine32.c:175-372 | every Porter-Duff operator shows, where the source is alone, where the destination is and where both are, what its name says, within a rounding for each region it is made of |
| BlendLaws.Corners | jni/pixman-extra/pixman-combine32.c:175-372 | exactly so over an empty destination, under an empty source, and between two opaque pixels |
| BlendLaws.MultiplyByRegion | jni/pixman-extra/pixman-combine32.c:453-476 | MULTIPLY shows the product where both are |
| BlendLaws.AddHolds | jni/pixman-extra/pixman-combine32.c:374-394 | ADD is the sum, each component held to the largest |
| BlendLaws.SaturateFills | jni/pixman-extra/pixman-combine32.c:396-424 | SATURATE adds where there is room for the source; where there is not, the alphas fill up exactly, and each colour gets its share of the room within one |
| Combine.NotIsInverse | jni/pixman-extra/pixman-combine32.c:188 | complementing the word complements each component |
| Combine.Unpacked | jni/pixman-extra/pixman-combine32.h:22-25 | every word is the packing of its components |
| Combine.CombineMask | jni/pixman-extra/pixman-combine32.c:107-126 | the source scaled by the mask's alpha, as it is without a mask, and premultiplied still if it was |
| Combine.BlendPixel | jni/pixman-extra/pixman-combine32.c:516-533 | the packed expression with its plain `+` is the blend of the two pixels, which BlendLaws tells apart mode by mode |
| Combine.CombinePixel | jni/pixman-extra/pixman-combine64.c:151-476 | each operator's packed arithmetic computes its meaning for the pixels, which BlendLaws tells apart, any pixels for all operators but the blend modes |
| Combine.CombineRow | jni/pixman-extra/pixman-combine32.c:175-193 | for rows of any width, the source row being the destination or not, each destination pixel is combined with its source pixel through the mask, premultiplied ones stay so, and none beyond the width changes |
| Coupling.CollapseIdle | jni/libvorbis/psy.c:1142-1146 | the branch that collapses equivalent tuples is reached for two zeros only, and changes nothing |
| Coupling.DecoupleCouple | jni/libvorbis/psy.c:1130-1148 | the decoder's step undoes the encoder's, for every pair of values |
| Coupling.CoupleDecouple | jni/libvorbis/mapping0.c:766-786 | the encoder's step undoes the decoder's exactly for angles in the range the encoder makes |
| Coupling.CoupleMeaning | jni/libvorbis/psy.c:1130-1148 | the magnitude is the sample of larger size, the angle is positive exactly if that is the magnitude channel's, and its size is the difference of the two; no other channel changes |
| Coupling.DecoupleMeaning | jni/libvorbis/mapping0.c:766-786 | for any pair the channel that the angle's sign names gets the magnitude, and the other is off it by the angle's size, downward from a positive magnitude and upward from any other |
| Coupling.CouplingInverts | jni/libvorbis/psy.c:1103-1148 | all steps forward and then in reverse restore every channel, however steps share channels |
| Coupling.FirstCoupled | jni/libvorbis/psy.c:1103-1103 | the first step is taken first in the encoder |
| Coupling.LastDecoupled | jni/libvorbis/mapping0.c:762-762 | and undone last in the decoder |
| Coupling.SilentStays | jni/libvorbis/psy.c:1103-1120 | a channel that no step has woken still holds nothing but zeros |
| Coupling.SilentPair | jni/libvorbis/psy.c:1120-1121 | passing over a pair that is still silent changes nothing |
| Coupling.CoupleAll | jni/libvorbis/psy.c:1064-1203 | partition by partition, every bin goes through all steps in order, whatever the partition size, with silent channels cleared and silent pairs passed over; the channels left silent hold zeros |
| Coupling.DecoupleAll | jni/libvorbis/mapping0.c:762-787 | every bin goes through all steps in reverse |
| Coupling.CoupleAndBack | jni/libvorbis/mapping0.c:761-787 | every sample of every channel is restored, zeros in the silent ones |
| LinkSearch.ListSeparates | jni/libvorbis/vorbisfile.c:202-215 | a link's serial list accepts its own pages and none of any later link |
| LinkSearch.OggVorbisFile.GetNextPage | jni/libvorbis/vorbisfile.c:108-139 | the first page that starts at or after the offset, which moves past it, or none |
| LinkSearch.OggVorbisFile.Bisect | jni/libvorbis/vorbisfile.c:526-550 | the search ends, at the first page of the next link |
| LinkSearch.OggVorbisFile.FetchSerials | jni/libvorbis/vorbisfile.c:300-350 | collects exactly the serials of a link's initial pages, or refuses, exactly when one comes up twice |
| LinkSearch.OggVorbisFile.FetchHeaders | jni/libvorbis/vorbisfile.c:281-412 | the same, and on to the end of the page that completes the headers |
| LinkSearch.OggVorbisFile.GetPrevPageSerial | jni/libvorbis/vorbisfile.c:223-277 | chunk by chunk from the end: the last page's serial, or the preferred one if a page of it comes before listed pages only |
| LinkSearch.OggVorbisFile.BisectForward | jni/libvorbis/vorbisfile.c:466-597 | the recursion ends with one entry in each table for each link, at its first page and at its data, exactly if no further link repeats an initial serial |
| LinkSearch.OggVorbisFile.OpenSeekable | jni/libvorbis/vorbisfile.c:616-655 | for any chain of links with separate serials, each with complete headers and a marked page after them, `offsets` and `dataoffsets` hold exactly the starts and the data of all links, and the end; it fails exactly if a link repeats a serial among its initial pages |

## Left out

- Floor1Packet.DecodeFloor: promises the encoder's posts only where some sub-book could code each value and the books had its codeword; otherwise the source writes nothing ("bad books"), and no decoder can follow.
- Lattice.SearchAll: requires fewer entries than eight digits can count; with more the search looks past its array (Lattice.SearchOverruns).
- Residue.DecodePart: requires vectors of at least one component. In dimension 0 listing shared values does not end (QuantVals.NoRootOfZero), and with listed ones every partition would read to the end of the packet.
- ResidueInverse.Inverse: requires room for what is read past the partitions; the source does not check it, and ResidueLook.AcceptedFits says when it is there.
- ResidueInverse.InverseAcross: the same, and lockstep only where begin and grouping are multiples of the channel count; Residue2.PlacesAsked says why.
- ResidueRoundTrip.RoundTrip: the books keep in step and have full trees, and the block's stages are exact; Cascade.RunExact is the exact condition for that, step by step, and Cascade.ScheduleCovered one on books and samples.
- Residue type 0's decoding order (`vorbis_book_decodevs_add`), residue classification (`_01class`, `_2class`), and the selection of the channels that are not silent for type 1.
- Synthesis.VorbisSynthesis.Blockin: one channel, as all go through the same steps; packets that are only tracked (no samples) are not modelled.
- Analysis.VorbisAnalysis.WroteEof: not called again once the centre has passed the end (Analysis.EofAgain), nor after the last block, where the source would start counting anew.
- Analysis.VorbisAnalysis.Wrote: one channel. The extrapolated samples before and after the input are arbitrary.
- EndToEnd.SampleExact: the codec between the two ends is an arbitrary function of each block that keeps its size, its place and its last mark.
- Transparency.PlaysBack: one codec for all blocks, which keeps them under their windows exactly; the transform is stood for by what it leaves, the block and a multiple of its mirror image, and its arithmetic is not modelled.
- Bitrate.BitrateManager.AddBlock: rates, bias and slew damping are reals, the minimum is not above the maximum, and the slew damping is not negative (0 stands for no limit); with both limits set the reservoir has at least 7 bits, below which no size may fit (Bitrate.SevenBits).
- StaticBook.Unpack: the floating-point unpacking of minimum and delta is not modelled.
- ValueList.Unquantize: minimum and step are whole numbers, where the source has floats; each row of the list is one vector.
- SetupHeader.Unpack: identification and comment headers are not modelled.
- FloorSetup.Unpack: the post list is as long as it comes, where the source's table has 65 places and is written to before anything is refused; FloorSetup.FitsExactly says when it suffices, for it and for the tables of the floor coder.
- PointerSort.SortPointers: stands for the C library's `qsort`.
- Combine.CombineRow: rows that overlap in part, component-alpha (`_ca`) combiners, soft light, the non-separable modes and the disjoint and conjoint operators are not modelled.
- Combine.BlendPixel: premultiplied pixels only.
- Combine.CombinePixel: the blend modes are modelled for premultiplied pixels, which they rely on.
- Coupling.CoupleAll: every bin of a pair that is not silent is coupled losslessly; lossy coupling depends on floating-point thresholds.
- LinkSearch.OggVorbisFile.FetchHeaders: headers are not parsed, the page that completes them is given; a page of the Vorbis stream repeated among the initial pages is refused like any other, where the source stops collecting and refuses the second header.
- LinkSearch.OggVorbisFile.OpenSeekable: pages are whole and sorted; garbage between pages is skipped by GetNextPage, but read errors, the limit on how far a header is looked for, garbage after the last page, and the PCM length bookkeeping are not modelled.
- Floor 1 fitting, psychoacoustics, transforms, LPC, window shapes and the decoding of floor 0: floating-point.
- C integer overflow, allocation and freeing.
