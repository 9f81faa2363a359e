# A verified model of the codec, the Merkle tree and the hasher

The project models three parts of the repository and proves what they are for.

**The block-sorting codec (`bzip2/`).** Input bytes are run-length coded into blocks; a block's cyclic rotations are
sorted by one of two sorters; the last column is coded as move-to-front places and runs, then with Huffman codes under
several tables; the bits are packed into bytes. The decoder takes all of it back, whatever the pieces in which its
input comes and whatever the room for its output. The main theorem is `Sessions.CompressThenDecompress`: a client
compresses under any calls of RUN, FLUSH and FINISH, another decompresses what came out under any calls, and the data
come back.

- `Bits`, `BitIO`, `Crc`, `Occurrences`, `Permutations`, `Rotations`, `Shuffles`: bits and bytes, the two bit buffers, the
  CRC, counting, permutations, rotations in order, and what sorting steps keep.
- `StreamFormat` says what the encoder's bits are for a list of coded blocks; `IsEncoding` is the relation between bytes
  and data. `StreamGrammar` says, in numbers and without a decoder, which streams there are, whoever made them; `IsStream`
  is the relation. `ReadBack` proves that the decoder's automaton (`Decoder`) reads every stream, `AcceptedStreams` that it
  accepts nothing else, and `RoundTrip` that what the encoder sends is one.
- The encoder: `RunLength`, `FallbackQuickSort`, `RadixBuckets`, `HeaderBits`, `DepthDoubling`, `FallbackSort`,
  `MainCompare`, `MainQuickSort`, `BucketScan`, `MainSort`, `BlockSort`, `InverseBwt`, `MoveToFront`, `MtfEncoder`,
  `CodeLengthHeap`, `CodeForest`, `CodeCost`, `CodeLengths`, `Huffman`, `HuffmanTables`, `TableChoice`, `BlockWriter`,
  `OutputBounds`, `BlockCompressor`, `Compressor`.
- The decoder's own memory and its steps: `MtfArena`, `PackedLinks`, `BlockRows`, `BlockStore`, `BlockOutput`,
  `DecoderRegs`, `DecoderSteps`, `DecoderFeeding`, `Decompressor`. The automaton is the specification of these: each
  step of the registers, tables and arrays ends at the label and in the state that the automaton's step leads to.
- `Sessions` puts both sides together.

**The Merkle tree (`dcpp/`).** A tree is built incrementally by a stack of subtrees, and must be the recursive tree over
the leaves; a tree received as bytes gets its block size inferred; a download is checked against a tree as it comes in.
The hash is an arbitrary function of byte strings; where soundness needs it, a lemma supposes that there is no collision
among the finitely many strings actually hashed. Modules `MerkleHash`, `MerkleTree`, `MerkleRoots`, `TreeReceiver`,
`PieceStream`, `MerkleCheck`, `CheckedDownloads`, `Downloads`.

**The hasher thread (`dcpp/HashManager`).** Its queue, semaphore and pause counter are a class (`HasherQueue`); the steps
of the worker and of all callers, interleaved in any way, are a state machine (`HasherProtocol`).

## What turned out false of the code

- The leaves of an incremental Merkle tree are those of the file for every split into updates but some: when the first
  update is empty and data follow, the empty piece is hashed as a leaf of its own. `MerkleRoots.ProperIff` says exactly
  which splits are good; `MerkleRoots.EmptyFirst` is the smallest bad one.
- A checked download that is flushed before a byte has been written, from the start of a file with data, throws although
  nothing is wrong. `CheckedDownloads.FlushExactly` says exactly where a flush of correct data passes.
- A rebuild that is scheduled while another one runs is forgotten, and only such a one:
  `HasherProtocol.RebuildServedExactly` says so for every request and every run, `HasherProtocol.ForgottenRun` is a run
  from the start in which it happens.
- A rebuild that is scheduled while paused is meant to be begun without waiting for the resume; the second signal is for
  that. A file being hashed can use up both: `HasherProtocol.RebuildWhilePaused` says exactly when the rebuild is sure to
  come, `HasherProtocol.RebuildNotPaused` is a run from the start in which it waits. Shutdown always gets through:
  `HasherProtocol.StopWhilePaused`.
- A pause does not take effect at the worker's next callback while semaphore tokens are left:
  `HasherProtocol.PausedCallback` and `HasherProtocol.PauseTakesEffect` say exactly when it does.
- For a received tree without leaves and with a size, the inference of its block size has no end:
  `TreeReceiver.InferenceEnds`.

## Model

| member | source | states |
|---|---|---|
| Sessions.CompressThenDecompress | bzip2/bzlib.c:407-858 | for any list of compressor calls (action, more input, room) that reaches the end of the stream, and any list of deliveries (size, room) of what was sent with any bytes behind it: no error; what has come out is a prefix of the concatenated input; at the end of the stream it is all of it and not a byte behind the stream has been taken; and the end is reached as soon as the stream has been given and a call has room to spare |
| Sessions.CompressAll | bzip2/bzlib.c:407-464 | under any calls, passing on what each left together with more, a session that ends in STREAM_END has sent an encoding of exactly the concatenated input; no block holds more than 100000 * level - 10 bytes, and in a session without FLUSH every block but the last at least 100000 * level - 19 |
| Sessions.DecompressAll | bzip2/bzlib.c:808-858 | any stream, good or bad, delivered in any pieces with any rooms: output, end or error are those of one contiguous run over all bits; STREAM_END means that the bytes taken are a stream of the grammar and the output its data, DATA_ERROR and DATA_ERROR_MAGIC that no stream begins with them, DATA_ERROR_MAGIC exactly that they disagree with 0x42 0x5a 0x68 and a digit 1 to 9, and OK with room left that no stream is among what was given |
| Compressor.EState.Compress | bzip2/bzlib.c:289-464 | one call of BZ2_bzCompress from any state between calls: the new mode, exactly when SEQUENCE_ERROR and PARAM_ERROR are returned, bytes taken and sent accounted for, RUN stops only without input or room, a completed FLUSH has everything but at most 32 bits sent, a FINISH with room fills it or ends, and STREAM_END only when the output is an encoding of all input taken, after which nothing changes; a block of fewer than 100000 * level - 19 bytes is cut only as the last of a FLUSH or FINISH that has taken all its input, and none holds more than 100000 * level - 10 |
| BlockCompressor.BlockState.CompressBlock | bzip2/compress.c:602-667 | appends exactly the header, block and trailer bits due for this block to the bits still pending, folds the CRC in, leaves the block as it was, and its bytes stay inside arr2 |
| OutputBounds.BlockBitsCount | bzip2/compress.c:602-667 | every good block, whatever its order, tables and selectors, takes at most 17 bits a byte and a fixed number besides: at most one symbol more than bytes, and bounded maps, selectors and tables |
| OutputBounds.OutputFits | bzip2/compress.c:619-624 | the bytes made of bits left over, a stream header, any good block, the trailer and padding fit behind the block in arr2 |
| AcceptedStreams.AcceptsExactlyStreams | bzip2/decompress.c:194-617 | the decoder comes to a good end on some bytes if and only if they are a stream of the grammar: header, blocks behind their magic with the CRC of their data, byte map, 2 to 6 tables, selectors, lengths that never leave 1 to 20, codes, and a trailer with the combined CRC |
| AcceptedStreams.AcceptedIsStream | bzip2/decompress.c:194-617 | for bytes that end well, the level, the blocks and what each was sent as; all output is the data of those blocks, and what is left over is what follows the trailer |
| ReadBack.StreamIsAccepted | bzip2/decompress.c:194-617 | every stream of the grammar, also with groups of the byte map announced for nothing, more selectors than are kept, or lengths reached by detours, is read to its end and gives its data |
| AcceptedStreams.RefusesMagic | bzip2/decompress.c:196-207 | DATA_ERROR_MAGIC exactly for bytes that disagree with 0x42 0x5a 0x68 and a digit 1 to 9 as far as they go |
| AcceptedStreams.RefusedForGood | bzip2/decompress.c:194-617 | bytes that were refused do not begin any stream |
| RoundTrip.EncodingIsStream | bzip2/compress.c:602-667 | what the encoder sends for any good blocks is a stream of the grammar for the same data, with less than a byte of padding |
| RoundTrip.RoundTrip | bzip2/decompress.c:106-647 | every encoding of data, for every choice of rotation order, tables, selectors and padding, is decoded to data with all CRCs agreeing, stopping inside the last byte |
| Decompressor.DecompressStream.BzDecompress | bzip2/bzlib.c:808-858 | one call on any input with any room, the decoder's registers, save area, tables, arena and block memory as they were left: takes a prefix of the input, puts out no more than the room, and its result and all output so far are those of the automaton on all bytes ever taken; OK with room left means that all input was used and all its output is out; STREAM_END leaves fewer than eight bits, and then the bytes taken are a stream of the grammar and the output its data; DATA_ERROR_MAGIC exactly when the bytes taken disagree with 0x42 0x5a 0x68 and a digit 1 to 9; no stream begins with bytes that were answered with an error; after the end only SEQUENCE_ERROR |
| Decompressor.DecompressStream.Round | bzip2/decompress.c:43-65 | GET_BITS at the present label and the code after it, from the locals: either the next label, or a return that stands for the automaton's state; one for want of input leaves all live locals in the save area and the label in the registers |
| Decompressor.DecompressStream.GetBits | bzip2/decompress.c:43-65 | loads only the bytes needed, returns the number the next bits make, and when input runs out has consumed nothing but it |
| DecoderSteps.DState.Step | bzip2/decompress.c:194-617 | from any label, with registers and locals that stand for a state of the automaton, the switch ends at the label, return or output state of the automaton's next state |
| DecoderSteps.DState.CodeRound | bzip2/decompress.c:70-102 | a round of GET_MTF_VAL through limit, base and perm of the open group gives what looking the code up gives: another bit, a symbol, or DATA_ERROR |
| BlockOutput.OutputStage.UnRleFast | bzip2/bzlib.c:536-682 | from any point of a block's output and with any room: what is out stays the expansion of the bytes fetched, with its running CRC, until the room or the block is used up; corrupt only when the block ends between a run of four and its count |
| BlockOutput.OutputStage.UnRleSmall | bzip2/bzlib.c:706-804 | the same contract for the SMALL form |
| BlockStore.Store.Prepare | bzip2/decompress.c:492-582 | over any column, cftab and either the tt words or the links reversed along the cycle through origPtr make every later fetch read the inverse; none of the range checks fails |
| BlockStore.Store.GetFast | bzip2/bzlib_private.h:444-449 | the next fetch appends the next byte of the walk through T^(-1), and never leaves the block's memory |
| BlockStore.Store.GetSmall | bzip2/bzlib_private.h:475-479 | the same for the packed links, periodic columns included |
| BlockStore.Store.IndexIntoF | bzip2/bzlib.c:687-698 | halving over cftab finds the column byte that row indx reads |
| PackedLinks.LinkArray.Set | bzip2/bzlib_private.h:458-470 | a 20-bit link is stored in ll16 and half a byte of ll4, and no other link changes |
| MtfArena.Arena.Move | bzip2/decompress.c:427-480 | the sixteen chunks of the arena stand for the list with one place moved to the front, across gaps, chunk borders and the compaction |
| MtfArena.Arena.Init | bzip2/decompress.c:363-376 | the arena stands for 0, 1, ..., 255 |
| InverseBwt.InverseCorrect | bzip2/decompress.c:545-582 | for every block and every sorted listing of its rotations, ties in any order, the walk from the place of rotation 0 gives back the block |
| BlockSort.SortArrays.BlockSort | bzip2/blocksort.c:1031-1091 | whichever sorter runs, arr1 lists all rotations in order, origPtr is the place of rotation 0, and the block is unchanged |
| MainSort.MainSort | bzip2/blocksort.c:751-1011 | the block is never changed, and unless the budget runs out ptr is a permutation with all rotations in order |
| BucketScan.ScanBucket | bzip2/blocksort.c:912-939 | scanning a sorted big bucket ss from both ends fills the small bucket [t, ss] of every big bucket t not yet done, its own included, in rotation order, and touches nothing else |
| MainQuickSort.MainQSort3 | bzip2/blocksort.c:621-740 | a range of rotations that agree on dSt bytes is shuffled within itself, comes out in order unless the budget runs out, and the explicit stack never overflows |
| MainCompare.MainGtU | bzip2/blocksort.c:347-469 | the verdict is the order of the two rotations, with reads staying within the overshoot behind the block |
| FallbackSort.FallbackSort | bzip2/blocksort.c:212-329 | fmap is a permutation with all rotations in order, and the block, overwritten by the classes meanwhile, is back byte for byte |
| FallbackQuickSort.FallbackQSort3 | bzip2/blocksort.c:93-196 | a range comes out in order of eclass, shuffled within itself, the stack never overflowing |
| RunLength.PairExpands | bzip2/bzlib.c:216-247 | expanding what add_pair_to_block appends gives the run, whatever complete block it follows |
| MtfEncoder.GenerateMtfValues | bzip2/compress.c:120-231 | written over the pointers, a value never before its pointer has been read, are the symbols of the last column, with their frequencies |
| MoveToFront.MtfRoundTrip | bzip2/decompress.c:378-492 | for every column over the bytes in use, decoding its run and move-to-front symbols gives the column, ends at the end symbol, and the run guard never fires |
| MoveToFront.MtfOnly | bzip2/decompress.c:378-492 | the coding is one to one: whatever symbols the decoder takes for a column are those the encoder sends for it |
| StreamFormat.UsedOrdered | bzip2/decompress.c:26-35 | the bytes in use are listed in increasing order |
| Crc.UpdateDivides | bzip2/bzlib_private.h:167-172 | updating through the table is dividing by 0x04c11db7 bit by bit, most significant first |
| Crc.EntryValues | bzip2/crctable.c:34-67 | the entries of the table at the powers of two, which determine the others |
| Crc.EntryXor | bzip2/crctable.c:34-99 | the entry of an exclusive or is that of the entries |
| CodeLengths.MakeCodeLengths | bzip2/huffman.c:63-148 | terminates for all frequencies, lengths in 1..maxLen with a Kraft sum of exactly 1; no prefix code of any lengths is cheaper for the weights as last rescaled, and weights below Fib(maxLen + 1) are not rescaled |
| CodeCost.Reduce | bzip2/huffman.c:96-119 | any code for the present trees yields one for the trees after putting the two lightest together that is cheaper by their weight |
| Huffman.CanonicalInversion | bzip2/decompress.c:87-101 | for all lengths in 1..20, every proper prefix of a symbol's code asks for another bit, and the code gives back the symbol |
| Huffman.CodeOnly | bzip2/decompress.c:70-102 | for all tables, over- or under-subscribed, a symbol is found only by its own canonical code |
| HuffmanTables.AssignCodes | bzip2/huffman.c:152-167 | every symbol gets its canonical code |
| HuffmanTables.CreateDecodeTables | bzip2/huffman.c:171-204 | limit, base and perm are those that looking codes up uses |
| TableChoice.ChooseTables | bzip2/compress.c:262-450 | 2 to 6 tables by the thresholds 200, 600, 1200 and 2400, a selector for each fifty symbols, below the limit of 18002; four rounds, in each of which every group chooses a cheapest table and then every table becomes an optimal code of 1 to 17 bits for the symbols of the groups that chose it, from starting tables that share out the frequencies |
| TableChoice.FastCosts | bzip2/compress.c:358-385 | the packed sums hold the same six costs as the slow loop, without a carry between lanes |
| BlockWriter.SendMtfValues | bzip2/compress.c:239-598 | appends exactly the bits of the byte map, selectors, tables and codes of its choices, each table an optimal code for the groups sent with it |
| BitIO.BitWriter.FinishWrite | bzip2/compress.c:46-53 | all bits written, padded with zeros to a byte, are in zbits |
| MerkleTree.MerkleTree.Update | dcpp/MerkleTree.h:98-120 | the pieces hashed so far grow by the 1024-byte pieces of the data, and stack and leaves stay those of them; an empty update does nothing unless it is the first |
| MerkleTree.MerkleTree.GetHash | dcpp/MerkleTree.h:184-195 | the recursion gives the root of the balanced tree over the leaves of its range |
| MerkleTree.MerkleTree.Finalize | dcpp/MerkleTree.h:123-140 | the leaves are the subtrees of a block's pieces each, the last one short, and the root is the recursive one over them |
| MerkleTree.CalcBlockSize | dcpp/MerkleTree.h:81-87 | the smallest 1024 * 2^k with which so many levels cover the file |
| MerkleRoots.HashFile | dcpp/MerkleTree.h:98-140 | any updates and finalize, with any block size that fits: the recursive root and leaves of the whole file whenever the split is proper, and which leaves otherwise |
| MerkleRoots.ProperIff | dcpp/MerkleTree.h:98-120 | the pieces hashed are the file's if and only if the split does not begin with an empty update before data and has no short piece before the last |
| MerkleRoots.EmptyFirst | dcpp/MerkleTree.h:98-120 | an input for which it fails |
| MerkleRoots.RootFromLeaves | dcpp/MerkleTree.h:157-195 | with every block size that fits, the leaves have the root of the file |
| TreeReceiver.MerkleTreeOutputStream.Write | dcpp/MerkleTreeOutputStream.h:31-51 | written in any chunks, the whole leaves among the bytes so far are the tree's leaves, and the rest is in the buffer |
| TreeReceiver.MerkleTreeOutputStream.AllReceived | dcpp/MerkleTreeOutputStream.h:31-51 | once the bytes written are those of a list of leaves, the tree has exactly that list and the buffer is empty |
| TreeReceiver.InferenceEnds | dcpp/DownloadManager.cpp:282-284 | the loop that doubles the block size comes to an end if and only if there is a leaf or the size is zero |
| TreeReceiver.InferBlockSize | dcpp/DownloadManager.cpp:282-284 | whenever it ends: the smallest 1024 * 2^k with which the leaves cover the file |
| TreeReceiver.EndData | dcpp/DownloadManager.cpp:279-290 | a received tree is accepted if and only if its root with the inferred block size is the one asked for; for the leaves of a file with a block size of 1024 * 2^k that is so if and only if it is the file's root, and the block size is recovered when there are two leaves or more |
| MerkleCheck.MerkleCheckOutputStream.Write | dcpp/MerkleCheckOutputStream.h:59-93 | throws exactly when some completed leaf is not the real one, and passes on bytes only when all are |
| MerkleCheck.MerkleCheckOutputStream.Flush | dcpp/MerkleCheckOutputStream.h:44-57 | exactly when it throws: by root when all leaves are there, else by leaves |
| CheckedDownloads.FlushExactly | dcpp/MerkleCheckOutputStream.h:44-57 | for correct data, without collisions, a flush passes if and only if it comes at the end of the file or at a block boundary other than the start of the file |
| CheckedDownloads.NothingWritten | dcpp/MerkleCheckOutputStream.h:44-57 | an input for which correct data are refused |
| CheckedDownloads.CorrectWrites | dcpp/MerkleCheckOutputStream.h:89-117 | while correct data come in, from any block on, no write throws |
| Downloads.Download | dcpp/MerkleCheckOutputStream.h:29-117 | from any block on, in any writes, and a flush: only a prefix of what came in is passed on, all of it when nothing threw; for every file the tree is of, correct data that end at the end of the file or at a block boundary other than its start are accepted, without collisions no other correct data are, and data up to its end that are accepted are correct |
| Downloads.PassedIsFile | dcpp/MerkleCheckOutputStream.h:44-57 | without collisions, data up to the end of the file that pass are the file's |
| Downloads.CompletedBlocks | dcpp/MerkleCheckOutputStream.h:89-117 | without collisions, while nothing has thrown every completed block is the file's |
| HasherProtocol.NoLostWakeUps | dcpp/HashManager.cpp:522-611 | after any interleaving, an unpaused worker about to wait, with files queued, a pause to come out of, a rebuild or a stop due, has a token or is about to be signalled |
| HasherProtocol.RunKeeps | dcpp/HashManager.cpp:522-611 | tokens, deferred tokens and signals owed cover all work after every run |
| HasherProtocol.WakeUpsAccounted | dcpp/HashManager.cpp:522-583 | a conservation law over every run: tokens, deferred wake-ups and waits passed are what there was and what was made, one for each new file (at once or deferred), each pause on top of another, each worker about to wait at a callback, and each signal |
| HasherProtocol.RestMeansDone | dcpp/HashManager.cpp:585-703 | when an unpaused hasher comes to rest, nothing is queued, wanted or due |
| HasherProtocol.InternalStepsEnd | dcpp/HashManager.cpp:585-703 | left to itself the hasher, paused or not, comes to rest: every step of its own makes a measure smaller |
| HasherProtocol.PauseTakesEffect | dcpp/HashManager.cpp:532-583 | while it stays paused the worker goes past a wait exactly once for each token that was there |
| HasherProtocol.PausedCallback | dcpp/HashManager.cpp:572-583 | at a callback while paused, no signals on their way: in every continuation without a resume or a new request the worker stays inside the callback, if and only if no token is left |
| HasherProtocol.PauseNotImmediate | dcpp/HashManager.cpp:532-583 | a run in which the worker goes on past a pause with the token of another file |
| HasherProtocol.RebuildServed | dcpp/HashManager.cpp:585-599 | a rebuild scheduled while none runs is begun before its flag is cleared |
| HasherProtocol.RebuildServedExactly | dcpp/HashManager.cpp:585-599 | for a request for a rebuild made in any state, and any run after it without a further request at whose end the flag is clear: a rebuild has been begun for it if and only if none was going on when it was made |
| HasherProtocol.RebuildForgotten | dcpp/HashManager.cpp:594-599 | whatever is asked or happens while a rebuild goes on, once it is done the worker is never rebuilding again without a further request |
| HasherProtocol.ForgottenRun | dcpp/HashManager.cpp:594-599 | a run from the start in which a request made during a rebuild ends with the flag clear, the worker idle, and no rebuild begun for it |
| HasherProtocol.StopWhilePaused | dcpp/HashManager.h:122 | told to stop while paused, wherever its worker is, and left to itself, the hasher comes to rest only with its worker ended |
| HasherProtocol.StopIsSoon | dcpp/HashManager.cpp:585-660 | once told to stop it begins at most the file it was about to pick and reads at most one callback more |
| HasherProtocol.RebuildWhilePaused | dcpp/HashManager.h:123 | a rebuild asked for while paused is begun in every run of its own to rest if and only if none is going on, no file is about to be picked, and the wake-ups there, with the two of the request, are enough for the callbacks left and the top of the loop |
| HasherProtocol.RebuildNotPaused | dcpp/HashManager.h:123 | a run from the start in which it is not |
| HasherQueue.Hasher.StopHashing | dcpp/HashManager.cpp:548-557 | exactly the files not below the directory are left, with their sizes |
| HasherProtocol.StoppedFiles | dcpp/HashManager.cpp:548-557 | in every run after stopHashing no file below the directory is begun unless one is handed in again |
| HasherProtocol.StaysQueued | dcpp/HashManager.cpp:548-611 | a queued file stays queued, with its size, until it is picked or its directory is stopped |
| HasherProtocol.HashedInOrder | dcpp/HashManager.cpp:600-606 | files are hashed in the order of their names as long as none is handed in meanwhile |
| HasherQueue.Hasher.Resume | dcpp/HashManager.cpp:537-541 | the loop sends one signal for each deferred wake-up and leaves the counter at zero; called while not paused, the unsigned counter first runs through zero, and it sends 0xFFFFFFFF |

## Left out

- Randomised blocks: the decoder's model stops at the flag (`Unmodelled`), and the grammar of streams has none; the encoder never sets it.
- Calls after DATA_ERROR: what the decoder does when it is called again after an error is not modelled.
- Verbosity, memory allocation and its failures, BZ2_bzRead, BZ2_bzWrite and the other FILE wrappers, BZ2_bzBuffToBuff.
- The tables of DState (inUse, seqToUnseq, selector, selectorMtf, len, limit, base, perm, minLens) are fields with sequence
  values that the methods reassign, made by in-place arrays where they are computed; gLimit, gBase and gPerm are
  the rows pointed to. zt, zj and uc are not among the saved locals: no code reads them across a return. nblock is the fill
  position of the block memory (`BlockStore.Store.nblock`), which lives on between calls by itself.
- The decoder's block memory has the size of the largest block from the start; the check against the block size of the stream is kept.
- ptr, mtfv and zbits share memory with arr1 and arr2 in the source: mtfv is modelled over arr1 as half-words, zbits as a
  sequence whose bytes are proved to fit; quadrant, ftab and bhtab are arrays of their own.
- The unrolled loops of mainGtU, sendMTFValues and the small moves of the arena are loops.
- Integer widths: counters of bytes in and out, the hasher's `paused` (upwards) and file sizes are unbounded; words, half-words, CRCs,
  packed costs, packed links and the 8-bit depth field of weights have their widths.
- BlockOutput.OutputStage.UnRleFast: on corrupt data the bytes written since the call began are not counted as put out, as the source does not save its copies of the position.
- Compressor.EState.Compress: a completed FLUSH leaves up to 32 bits unsent, as the source does; that the bytes sent for the same data do not depend on how they were cut is not claimed, and is not so.
- BlockSort.SortArrays.BlockSort: which of several equal rotations of a periodic block comes first is not determined.
- TableChoice.ChooseTables: when the counts reach 6765 the lengths may have been rescaled, and a table is optimal for the rescaled counts.
- CodeLengths.MakeCodeLengths: after a rescaling the lengths are optimal for the rescaled weights, which says nothing of the original ones.
- MerkleTree.MerkleTree.Finalize: a second finalize of the same tree is not modelled, nor is a second flush of a check stream.
- TreeReceiver.InferBlockSize: asks for a leaf or a size of zero, as its loop has no end otherwise.
- TreeReceiver.EndData: asks for at least one leaf, as the source does where it reads the first one (dcpp/MerkleTree.h:186).
- The Tiger hash and the collisions it may have; the CRC table as an array: an entry is computed, and proved to be what the table holds.
- HashStore, throttled reading, SFV checks and progress figures of the hasher; of the download manager everything but a received tree.
