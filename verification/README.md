# Verified model of reld

reld is a linker that also dispatches to other linkers. This project models the parts of it whose
correctness is least visible in the code and proves what they promise:

- **RISC-V relaxation** (`RelaxDeltas`, `RelaxScan`, `RelaxEligible`, `RelaxRuns`, `RelaxMargins`,
  `RelaxedCalls`, `RelaxIterations`, `RelaxWriter`): the scan that decides which bytes of a section to delete, the
  offset maps, repeated passes, the rescan margins, what the shorter code does in the end, and the
  copy of the surviving bytes.
- **Debug-section compression** (`Adler`, `Inflate`, `InflateLocality`, `Compression`,
  `StoredBlocks`, `LayoutRewrite`, `LayoutTables`, `DebugBuffer`): the stitched zlib stream against a decoder that
  follows RFC 1950 and RFC 1951, the tables rewritten afterwards, and the buffer the group tasks fill
  in parallel.
- **PLT entries and thunks** (`Materialise`): the bytes written for LoongArch, AArch64 and RISC-V
  and the address that executing them reaches, over 64-bit words.
- **The bridge to other linkers** (`CommandLine`, `ResponseFiles`, `StripFlags`, `StripByName`,
  `Forwarding`, `Json`, `InvocationLog`): response files, dropped flags, and the JSON Lines audit log.
- **The measurement harness** (`CgroupLauncher`, `Handshake`, `RoundPlan`): the launch handshake as
  a state machine over every interleaving, the memory sampler and the balanced round plan.
- **Glob classification** (`Glob`) and **alignment arithmetic** (`Alignments`, `Arithmetic`).

`Wrappers` has the option and result types, `Sequences` the facts about sequences. Loops over
mutable state are methods proved against specification functions; the properties are lemmas about
those functions. A `hide` statement in a proof only keeps definitions folded.

Source files are cited by path and line. Where the code and its own documentation disagree the
model follows the code, and a lemma says exactly when they differ:

- A later relaxation pass can break the alignment an earlier pass established, because a sled that
  was cut once is skipped (`SkippedSledDrifts`, `LaterPassBreaksAlignment`).
- `addend.next_power_of_two()` reads a sled of at most half the alignment as a smaller request
  (`SledLengthGivesAlignment`, `ShortSledsAreMisread`).
- The upper part accepted for `c.lui` is documented as [-32, -1] and [1, 31]; only 1 to 31 ever is
  (`CluiFitsExactlyOneTo31`), and two of the three margin cases are dead.
- Candidates dropped from a rescan are said to have no chance. A backward call one byte short has
  one, and so has a `lui` between the least reduction that relaxes it and its margin: within a page
  below 2^32, and above it from the next lower multiple of 2^32 on. `CallFilter` and `LuiFilter` give
  both families for one iteration, `SectionFilter` when a whole section is dropped, `MissedCall` and
  `MissedLui` inputs. A dropped section is never looked at again while deletions add up:
  `LostCandidates` says exactly which candidates later iterations lose, `LaterDeletionsAddUp` is an
  input.
- The scan measures calls between raw offsets, the bytes written stand elsewhere: a call into another
  section can be relaxed out of reach, one within its section cannot (`RelaxedCallReachesTarget`,
  `SameSectionCallReaches`, `RelaxedCallOutOfReach`).
- `lui` is compressed or deleted for the value the scan sees and written for the final one. The two
  can differ so far that `c.lui` gets its reserved immediate (`RelaxedLuiStaysRight`,
  `CluiBecomesReserved`).
- There can be 129 shards where the documented maximum is 128 (`ChunkCount`, `OneChunkTooMany`).
- The forward offset map can go below zero, and the cursor over it needs its queries in an order
  that its documentation does not ask for (`UnderflowsExactly`, `CursorAgreesExactly`).
- `--engine=` is documented never to reach a child linker; one inside a response file does
  (`OverrideLeaksExactly`, `OverrideLeaks`).
- The last memory sample of a trial is documented to catch a target that ended before the first
  tick; it is taken after the process was reaped and never does
  (`OnlyTheMonitorObservesExec`, `ShortTargetIsMissed`).

## Model

| member | source | states |
|---|---|---|
| RelaxScan.CollectRelaxationDeltas | crates/reld-core/src/elf_riscv64.rs:394-532 | The one-loop scan, with its two remembered relocations, returns exactly the cuts of the per-relocation decisions, and as margin the least over all candidates left unrelaxed: none if and only if there is no such candidate. |
| RelaxScan.ReadRelax | crates/reld-core/src/elf_riscv64.rs:456-523 | The RELAX arm settles the call or `lui` remembered just before, and only when the offsets pair, no earlier pass cut it and its symbol resolves and is not interposable. |
| RelaxEligible.CutsExactly | crates/reld-core/src/elf_riscv64.rs:394-532 | Everything a pass returns and nothing else: four bytes at the second instruction of a relaxed call, four or the upper two of a `lui`, the surplus of a sled at its start. |
| RelaxEligible.CallsCutExactly | crates/reld-core/src/elf_riscv64.rs:453-469 | A call is cut if and only if a RELAX entry for its place comes next, its second instruction was not cut before, its symbol has an address and is not interposable, and the 64-bit distance lies in [-2^20, 2^20). |
| RelaxEligible.CallMarginsExactly | crates/reld-core/src/elf_riscv64.rs:470-478 | A call has a margin if and only if all this holds but the last; the margin is the size of the distance less 2^20 - 1. |
| RelaxEligible.LuisCutExactly | crates/reld-core/src/elf_riscv64.rs:480-501 | A `lui` is deleted or halved if and only if it is paired, uncut, inside the section and resolvable without interposition, and bits 12 to 31 are zero, or the upper part is 1 to 31 and bits 7 to 11 of the instruction name neither x0 nor x2. |
| RelaxEligible.LuiMarginsExactly | crates/reld-core/src/elf_riscv64.rs:502-517 | It has a margin if and only if the upper part is above 31, bits 12 to 31 are not all zero and the register fits. |
| RelaxEligible.SledsCutExactly | crates/reld-core/src/elf_riscv64.rs:409-445 | A sled is cut if and only if it has bytes, was not cut before and is longer than the least padding to the next multiple of its rounded length at the place where it then stands; exactly that padding stays. |
| RelaxScan.FlattenIsSortedAndDisjoint | crates/reld-core/src/elf_riscv64.rs:407-529 | The cuts of a pass come out strictly ascending and pairwise disjoint, for every well-formed relocation list. |
| RelaxScan.CutInFootprint | crates/reld-core/src/elf_riscv64.rs:442-513 | Each cut lies inside the footprint of its own relocation (sled, 8 bytes of a call, 4 bytes of a `lui`). |
| RelaxScan.PositionNeverWraps | crates/reld-core/src/elf_riscv64.rs:418-430 | Subtracting earlier and new deletions from a relocation offset never goes below zero. |
| RelaxScan.CutAtMostOnce | crates/reld-core/src/elf_riscv64.rs:412-484 | A relocation that has been cut is left alone by every later pass. |
| RelaxRuns.PassKeepsInvariant | crates/reld-core/src/elf_riscv64.rs:407-529 | After any pass the new cuts are disjoint from each other and from all earlier ones, and the merged list again has one cut at most per relocation, so the next pass meets the same premises. |
| RelaxRuns.ScanSection | crates/reld-core/src/layout.rs:5266-5307 | Scanning and merging in place records exactly the combined decisions of all passes so far. |
| RelaxRuns.RunsConverge | crates/reld-core/src/elf_riscv64.rs:412-484 | Over any sequence of passes with arbitrary symbol answers, at most as many passes as there are relocations delete anything. |
| RelaxRuns.HandledSledAligned | crates/reld-core/src/elf_riscv64.rs:409-445 | For a sled the pass handles, under all earlier and new deletions, the byte after it is aligned if and only if the sled reached the next boundary from its final position. |
| RelaxRuns.EverySledHandledIsAligned | crates/reld-core/src/elf_riscv64.rs:409-445 | With even inputs and a sled of at least alignment minus two bytes, every handled sled ends on its boundary whatever else was deleted. |
| RelaxRuns.PassKeepsGranule | crates/reld-core/src/elf_riscv64.rs:409-513 | Every deletion of a pass is even when its inputs are, so the premise of the alignment theorem survives repeated passes. |
| RelaxRuns.SkippedSledDrifts | crates/reld-core/src/elf_riscv64.rs:412-416 | A sled cut by an earlier pass stays aligned if and only if the section move cancels, modulo the alignment, with the bytes freed in front of it: by calls and `lui` whose symbols are now in reach and by sleds not yet cut; when there is no such sled, by the former alone. |
| RelaxRuns.RemovedIsFreed | crates/reld-core/src/elf_riscv64.rs:440-512 | All that a pass removes in front of a relocation is what the relaxing branches free, each decided by its symbol, offset and the earlier cuts, plus the excess of the fresh sleds. |
| RelaxRuns.LaterPassBreaksAlignment | crates/reld-core/src/elf_riscv64.rs:412-416 | Alignment is not kept by repeated passes: a concrete section whose second pass leaves an aligned byte four bytes off. |
| RelaxRuns.SledLengthGivesAlignment | crates/reld-core/src/elf_riscv64.rs:432-433 | Rounding the sled length up to a power of two recovers the requested alignment if and only if the sled is longer than half of it. |
| Arithmetic.NextPowerOfTwoIsLeast | crates/reld-core/src/elf_riscv64.rs:432-433 | The alignment read from a sled is the least power of two not below its length. |
| RelaxRuns.ShortSledsAreMisread | crates/reld-core/src/elf_riscv64.rs:432-433 | The two concrete requests (four bytes with, eight bytes without compressed instructions) that are read as half of what was asked. |
| RelaxDeltas.Record | crates/reld-reloc/src/relaxation.rs:28-46 | Every entry carries the total deleted up to and including it, and the raw pairs are kept. |
| RelaxDeltas.SectionRelaxDeltas.MergeAdditional | crates/reld-reloc/src/relaxation.rs:63-82 | Merging keeps every cut once, in offset order, with recomputed totals. |
| RelaxDeltas.SortedIsUnique | crates/reld-reloc/src/relaxation.rs:76-81 | An ascending cut list is determined by its elements, so the order of merging does not matter. |
| RelaxDeltas.CumulativeBeforeIsDeletedBefore | crates/reld-core/src/elf_riscv64.rs:418-428 | The binary search over running totals finds exactly the bytes deleted before an offset. |
| RelaxDeltas.SubtractionCountsKept | crates/reld-reloc/src/relaxation.rs:99-118 | The forward map counts the surviving bytes below an offset if and only if the offset is not strictly inside a deleted range. |
| RelaxDeltas.UnderflowsExactly | crates/reld-reloc/src/relaxation.rs:99-118 | For every recorded list the subtraction goes below zero if and only if the offset lies between the start of some entry and its running total. |
| RelaxDeltas.InputRoundTrip | crates/reld-reloc/src/relaxation.rs:99-136 | The inverse map takes the output position of a surviving byte back to its input position. |
| RelaxDeltas.OutputRoundTrip | crates/reld-reloc/src/relaxation.rs:99-136 | Every output position comes from one surviving input byte, which the forward map takes back. |
| RelaxDeltas.InteriorOffsetUnderflows | crates/reld-reloc/src/relaxation.rs:99-118 | A concrete offset inside a deleted range for which it does. |
| RelaxDeltas.RelaxCursor.Translate | crates/reld-reloc/src/relaxation.rs:156-168 | One cursor query advances past exactly the entries before the offset. |
| RelaxDeltas.CursorAnswerExact | crates/reld-reloc/src/relaxation.rs:156-168 | Whatever entry a cursor stands at, it answers as the independent search does if and only if the entries consumed too many deleted nothing. |
| RelaxDeltas.CursorAgreesExactly | crates/reld-reloc/src/relaxation.rs:156-168 | All answers of a sweep are those of the search if and only if no query goes back past an entry that deletes something. |
| RelaxDeltas.CursorAgreesOnAscendingQueries | crates/reld-reloc/src/relaxation.rs:156-168 | For ascending queries the sweeping cursor answers each as the independent search does. |
| RelaxDeltas.CursorIsWrongGoingBack | crates/reld-reloc/src/relaxation.rs:156-168 | Two concrete queries, the second of which is answered wrongly. |
| RelaxMargins.ForwardMarginIsExact | crates/reld-core/src/elf_riscv64.rs:464-478 | For a forward call out of reach, shrinking the distance by the margin fits `jal`, shrinking by less does not. |
| RelaxMargins.CallFilter | crates/reld-core/src/layout.rs:5373-5392 | Taken alone, a call is kept whenever the deleted bytes could bring it in reach, except exactly a backward call one byte short. |
| RelaxMargins.CluiFitsExactlyOneTo31 | crates/reld-reloc/src/riscv64.rs:94-104 | `c.lui` is chosen if and only if the upper part is 1 to 31: the documented negative half never occurs. |
| RelaxMargins.LuiMarginTakesFirstCase | crates/reld-core/src/elf_riscv64.rs:503-516 | Only the first margin case is reachable, and its product fits in 64 bits. |
| RelaxMargins.LuiMarginReaches31 | crates/reld-core/src/elf_riscv64.rs:503-516 | Lowering the value by the margin makes its upper part exactly 31. |
| RelaxMargins.LuiFilter | crates/reld-core/src/layout.rs:5373-5392 | For every address of a `lui` left alone: the least reduction that relaxes it, and the filter drops it although the deleted bytes would suffice if and only if they lie between that and the margin. Below 2^32 the two differ by the rounding to pages; above, the margin goes down to 31 pages while the next lower multiple of 2^32 is enough, because the zero test reads 20 bits. |
| RelaxMargins.SectionFilter | crates/reld-core/src/layout.rs:5373-5392 | With the least margin of the section, as the source filters, over one iteration: a section with a candidate worth another look is dropped if and only if it holds one that its margin misses and all its margins are above the deleted bytes; a rescanned section always holds one. |
| RelaxIterations.IterativeRelaxation | crates/reld-core/src/layout.rs:5348-5407 | The loop asks each pass about the sections the one before kept, and ends after five passes or as soon as nothing was deleted or no section is left on the list. |
| RelaxIterations.DroppedForGood | crates/reld-core/src/layout.rs:5214-5231 | A section that is off the list never comes back. |
| RelaxIterations.LostCandidates | crates/reld-core/src/layout.rs:5373-5392 | Over a whole run: a section last seen by one iteration holds a candidate that the deletions up to a later one would let relax if and only if its margins are all above what the first deleted alone and some candidate needs no more than all of them deleted together. |
| RelaxIterations.LaterDeletionsAddUp | crates/reld-core/src/layout.rs:5373-5392 | A concrete forward call dropped after 6 bytes that 4 more would have brought into range. |
| RelaxMargins.MissedCall | crates/reld-core/src/layout.rs:5373-5392 | A concrete backward call that two bytes would bring in reach, with margin three. |
| RelaxMargins.MissedLui | crates/reld-core/src/layout.rs:5373-5392 | A concrete `lui` below and one above 2^32 that the filter misses. |
| RelaxedCalls.RelaxedCallReachesTarget | crates/reld-core/src/elf_riscv64.rs:464-469 | A call the scan relaxes fits by the scan's measure, from raw offset to raw offset; what is written reaches if and only if that measure still fits once corrected by the bytes gone in front of the call and of the target and by the moves of both sections, whatever later passes cut. |
| RelaxedCalls.RelaxedCallReachesAfterPass | crates/reld-core/src/elf_riscv64.rs:464-469 | Right after the pass the bytes gone in front of the call are those of earlier passes plus what calls, `lui` and sleds in front free, all known beforehand. |
| RelaxedCalls.PlaceAfterPass | crates/reld-core/src/elf_writer.rs:2676-2682 | Where the writer puts a relocation after the pass: that many bytes closer to the start of its section. |
| RelaxedCalls.SameSectionCallReaches | crates/reld-core/src/elf_riscv64.rs:464-469 | A relaxed call to a target in its own section reaches it for good, whatever later passes cut and wherever the section goes. |
| RelaxedCalls.RelaxedCallOutOfReach | crates/reld-core/src/elf_riscv64.rs:464-469 | A concrete run of two passes that relaxes a call into another section although the bytes written are out of reach. |
| RelaxMargins.RelaxedLuiLoadsTheSame | crates/reld-core/src/elf_riscv64.rs:494-501 | At the value the scan saw, deleting or compressing `lui` does not change the number the pair of instructions builds. |
| RelaxMargins.RelaxedLuiStaysRight | crates/reld-reloc/src/riscv64.rs:551-557 | At the final value, `s` bytes lower, a compressed `lui` is right if and only if the upper part has not become zero, which `c.lui` reserves; a deleted one if and only if it still is zero. |
| RelaxMargins.CluiBecomesReserved | crates/reld-reloc/src/riscv64.rs:551-557 | A concrete value the scan compresses and a reduction after which the immediate is zero. |
| RelaxMargins.LuiPairBuildsValue | crates/reld-core/src/elf_riscv64.rs:494-501 | The pair builds the symbol value if and only if that lies in the signed 32-bit range shifted by the rounding. |
| RelaxWriter.WriteRelaxed | crates/reld-core/src/elf_writer.rs:2480-2503 | The copy loop writes exactly the surviving bytes, in order, and nothing behind them. |
| RelaxWriter.RetainedByteLands | crates/reld-core/src/elf_writer.rs:2480-2503 | A surviving byte stands at the position the forward map gives. |
| RelaxWriter.RelaxedSectionAgrees | crates/reld-core/src/elf_writer.rs:2480-2503 | Bytes written and both offset maps agree, in both directions. |
| Adler.CombineIsConcat | crates/reld-core/src/compression.rs:147-150 | Joining two checksums modulo 65521 gives the checksum of the concatenation, for every length. |
| Adler.Adler32IsRfc | crates/reld-core/src/compression.rs:246-246 | The running sums give, for all data, the two halves that section 8.2 of RFC 1950 defines, modulo 65521. |
| InflateLocality.ReadBlockExtend | crates/reld-core/src/compression.rs:242-273 | A deflate block (stored, fixed or dynamic codes) reads the same whatever follows it. |
| InflateLocality.ApplyAfter | crates/reld-core/src/compression.rs:242-273 | A shard that decodes from an empty window decodes to the same bytes after any prefix. |
| InflateLocality.OpenBlocksThenStream | crates/reld-core/src/compression.rs:242-273 | Any run of non-final blocks in front of a stream decodes to their tokens followed by the stream. |
| InflateLocality.LengthCodesTile | crates/reld-core/src/compression.rs:242-273 | The length codes of the decoder cover 3 to 258 without gap or overlap, as section 3.2.5 of RFC 1951 lays them out. |
| InflateLocality.DistanceCodesTile | crates/reld-core/src/compression.rs:242-273 | Its distance codes cover 1 to 32768 likewise. |
| Compression.ChunksConcat | crates/reld-core/src/compression.rs:137-137 | The shards put together are the section. |
| Compression.ChunkLengths | crates/reld-core/src/compression.rs:204-206 | All chunks but the last are 64 KiB, or the 128th part of the section when that is more. |
| Compression.ChunkCount | crates/reld-core/src/compression.rs:204-206 | The limit of 128 shards holds if and only if the shard size is the minimum or the length is a multiple of 128; otherwise there are 129. |
| Compression.OneChunkTooMany | crates/reld-core/src/compression.rs:44-49 | A section of 8 MiB and one byte comes in 129 chunks. |
| Compression.EmptyFinalBlock | crates/reld-core/src/compression.rs:64-66 | The two trailer bytes are a final block without output. |
| Compression.ShardsThenStream | crates/reld-core/src/compression.rs:137-157 | Shards followed by the closing block decode, block by block, to their pieces in order. |
| Compression.StitchedStreamDecodes | crates/reld-core/src/compression.rs:152-162 | Header, shards, empty final block and checksum decode under RFC 1950 and RFC 1951 to exactly the input. |
| Compression.ChecksumOf | crates/reld-core/src/compression.rs:147-150 | The folded checksum equals Adler-32 of the whole section for every chunking. |
| Compression.CompressZlib | crates/reld-core/src/compression.rs:128-163 | Whole or sharded, the chunks are the pieces encoded one by one between header and trailer, and decode to the section; fails if and only if the encoder fails on some piece. |
| Compression.BodyByLength | crates/reld-core/src/compression.rs:131-162 | Up to 64 KiB one whole stream; beyond, the bytes 78 9C, one raw shard per chunk, and 03 00 with the checksum of RFC 1950, highest byte first. |
| StoredBlocks.StoringIsSound | crates/reld-core/src/compression.rs:242-244 | What is asked of the encoders can be met on every input: storing meets it. |
| Compression.CompressSection | crates/reld-core/src/compression.rs:307-335 | Fails if and only if the encoder fails on some piece; gives a result if and only if that is smaller; header and chunks together decode to the section, its size and its alignment, and the recorded total is the length of the chunks joined. |
| Compression.HeaderRoundTrip | crates/reld-core/src/compression.rs:315-320 | Type, size and alignment are read back from the section header. |
| LayoutRewrite.Layout.UpdateAllocationSizes | crates/reld-core/src/compression.rs:436-476 | All parts of a compressed section are emptied but the finest, in the part table and in every group, and both memory sizes are set. |
| LayoutRewrite.Layout.UpdateFileOffset | crates/reld-core/src/compression.rs:478-528 | Succeeds if and only if every consumed segment starts where it did; then parts tile their sections, and section and merged ranges are as laid out in output order. |
| LayoutRewrite.Layout.PlaceOne | crates/reld-core/src/compression.rs:498-522 | One section event aligns, places the parts without gaps and records the section and its merge target. |
| LayoutRewrite.Layout.Rewrite | crates/reld-core/src/compression.rs:113-114 | Both steps together, the whole new state of all four tables: succeeds if and only if no segment moves; then file sizes equal compressed sizes, and with one epilogue the group sizes of each part add up to it. |
| LayoutRewrite.SectionsInOrder | crates/reld-core/src/compression.rs:484-519 | Section starts are aligned and file ranges are disjoint and in output order. |
| LayoutTables.FirstSectionAtZero | crates/reld-core/src/compression.rs:483-502 | In the tables, the first section of the output order starts at 0. |
| LayoutTables.SectionsPackTightly | crates/reld-core/src/compression.rs:499-502 | In the tables, every later section starts at the least multiple of its alignment at or behind the end of the section before it. |
| LayoutTables.PartsFillSection | crates/reld-core/src/compression.rs:513-519 | In the tables, the parts of a section follow each other without a gap from its start to its end. |
| LayoutTables.MergedRangeIsExact | crates/reld-core/src/compression.rs:504-521 | In the tables, a merge target begins with its own section and ends with the last one merged into it. |
| LayoutTables.SegmentsTakenInTurn | crates/reld-core/src/compression.rs:486-489 | Segments are taken off their list from the head, each by the start event that names it. |
| LayoutTables.SegmentsStartAtEnds | crates/reld-core/src/compression.rs:486-496 | On success every segment taken off starts where the section before it ends, or at 0. |
| LayoutTables.FailureMovesSegment | crates/reld-core/src/compression.rs:490-496 | On failure some segment taken off did not. |
| LayoutTables.CollapsedPartByPart | crates/reld-core/src/compression.rs:445-453 | Part by part: the last of the seventeen parts of a compressed section takes its size, the others become empty, nothing else changes. |
| LayoutTables.CollapsedGroup | crates/reld-core/src/compression.rs:457-468 | The same in every group, which keeps the size only if it holds the epilogue. |
| LayoutRewrite.MergedRangeCovers | crates/reld-core/src/compression.rs:504-521 | With targets first, the range of a merge target contains every section merged into it. |
| LayoutRewrite.CompressedTablesAgree | crates/reld-core/src/compression.rs:436-521 | After both rewrites the section, part and group tables agree on every compressed section. |
| LayoutRewrite.GroupTotalOfCompressed | crates/reld-core/src/compression.rs:457-468 | The group total is the compressed size once per epilogue in the finest part and zero elsewhere. |
| LayoutRewrite.UncompressedSizesKept | crates/reld-core/src/compression.rs:436-521 | After both rewrites a section that was not compressed is as long as its parts were before, and each of its parts and their group totals are unchanged. |
| LayoutRewrite.SecondRewriteMovesNothing | crates/reld-core/src/compression.rs:478-528 | Laying out again moves nothing. |
| LayoutRewrite.PartsStayAligned | crates/reld-core/src/compression.rs:513-517 | Parts, which are not aligned one by one, stay aligned when each size is a multiple of its own alignment and the section is aligned for each part in use. |
| LayoutRewrite.OwnerIsUnique | crates/reld-core/src/output_section_id.rs:535-603 | Every part id belongs to exactly one output section. |
| DebugBuffer.WriteGroup | crates/reld-core/src/compression.rs:377-432 | The task of one group writes its relocated sections in order into its slice, up to the first that does not fit, and bails exactly when there is one. |
| DebugBuffer.TaskEndsAsWriteGroup | crates/reld-core/src/compression.rs:372-433 | Under any interleaving a task that has finished leaves in its slice what it leaves when run alone, whether it bailed or not. |
| DebugBuffer.LoneTaskIsWriteGroup | crates/reld-core/src/compression.rs:372-433 | A single group scheduled until it has finished makes of a zeroed buffer what `WriteGroup` makes of it. |
| DebugBuffer.AnyInterleavingIsSequential | crates/reld-core/src/compression.rs:360-433 | Any schedule of the group tasks leaves the buffer as the sequential order does. |
| DebugBuffer.BailExactlyWhenTooLong | crates/reld-core/src/compression.rs:391-397 | Some schedule reaches the overflow bail of a group if and only if its sections exceed its slice. |
| DebugBuffer.StepMakesProgress | crates/reld-core/src/compression.rs:378-431 | Every scheduled write of an unfinished task brings it closer to its end and leaves the other tasks alone. |
| DebugBuffer.FinishingSchedule | crates/reld-core/src/compression.rs:372-433 | Every schedule can be continued until all tasks have finished. |
| Alignments.New | crates/reld-core/src/alignment.rs:69-80 | Accepts exactly the powers of two up to the maximum. |
| Alignments.Alignment.AlignModulo | crates/reld-core/src/alignment.rs:114-127 | The result is the least offset at or above the aligned start congruent to the reference offset. |
| Alignments.AlignIsNearest | crates/reld-core/src/alignment.rs:102-112 | `align_up` and `align_down` are the nearest multiples on either side. |
| Alignments.CoarserIsFiner | crates/reld-core/src/alignment.rs:102-104 | A multiple of a coarser alignment is a multiple of a finer one. |
| Materialise.OrFromSlice | crates/reld-reloc/src/utils.rs:18-22 | ORs one little-endian word in place and changes no other byte. |
| Materialise.AndFromSlice | crates/reld-reloc/src/utils.rs:25-29 | ANDs one little-endian word in place and changes no other byte. |
| Materialise.WriteLoongArchPltEntry | crates/reld-core/src/elf_loongarch64.rs:64-81 | The two immediates are placed in their instructions, the jump and the break follow; the words left jump through exactly the GOT slot if and only if the page distance is below 2 GiB. |
| Materialise.LoongArchReachesGot | crates/reld-core/src/elf_loongarch64.rs:70-78 | For all 64-bit addresses: address, load and jump, through one register each, enter through exactly the slot under that condition. |
| Materialise.NearestPage | crates/reld-core/src/elf_loongarch64.rs:73-76 | The carry of half a page makes up for the sign extension of the low part, wrap-around included. |
| Materialise.WriteAArch64PltEntry | crates/reld-core/src/elf_aarch64.rs:109-135 | Refuses exactly distances of 4 GiB and more; otherwise the words left jump through the slot rounded down to eight bytes, and a nop follows. |
| Materialise.AArch64ReachesGot | crates/reld-core/src/elf_aarch64.rs:118-133 | Whenever accepted, `adrp`, `ldr` and `br` through the loaded register enter through that slot; it is the slot itself if and only if that is 8-aligned. |
| Materialise.WriteThunk | crates/reld-core/src/elf_aarch64.rs:352-367 | The words left in the buffer jump to exactly the target if and only if the page distance lies in [-2^20, 2^20). |
| Materialise.ThunkReachesTarget | crates/reld-core/src/elf_aarch64.rs:356-366 | `adrp`, `add` and `br` through the register that holds the sum; for all 64-bit addresses under that condition. |
| Materialise.WriteRiscVPltEntry | crates/reld-core/src/elf_riscv64.rs:82-98 | Clears and sets the immediates; the words left jump through exactly the GOT slot if and only if the rounded distance is a signed 32-bit number. |
| Materialise.RiscVReachesGot | crates/reld-reloc/src/riscv64.rs:484-504 | `auipc`, `ld` and `jalr` through the loaded register enter through exactly the slot under that condition. |
| ResponseFiles.ExpandAndStripDriverLto | crates/reld-core/src/bridge.rs:1790-1814 | The recursive loop returns the expansion, or the error of the first failing token, at every depth; it terminates on cyclic file maps. |
| ResponseFiles.StrictIsSubstitution | crates/reld-core/src/bridge.rs:1790-1814 | A success is the recursive substitution of the arguments (a least fixed point that knows no depth) minus driver LTO flags, with no response-file token left. |
| ResponseFiles.SubstitutionIsUnique | crates/reld-core/src/bridge.rs:1790-1814 | Arguments stand for at most one substituted list. |
| ResponseFiles.StrictFailsExactly | crates/reld-core/src/bridge.rs:1800-1807 | Fails if and only if some walk of at most 16 nested files ends at an unreadable one or some walk reaches a seventeenth. |
| ResponseFiles.FailureHasChain | crates/reld-core/src/bridge.rs:1800-1807 | A failure names such a walk, and the error tells which of the two kinds and at which file. |
| ResponseFiles.ErrorNamesTheEnd | crates/reld-core/src/bridge.rs:1800-1807 | The error names the last file of such a walk, and which of the two kinds it is. |
| ResponseFiles.LtoFlagsExactly | crates/reld-core/src/bridge.rs:1785-1788 | The driver LTO flags are `-flto` and `--flto`, alone or with `=` and any value. |
| ResponseFiles.CyclesFail | crates/reld-core/src/bridge.rs:1800-1807 | Any walk that returns to a file it has been through makes the expansion fail. |
| ResponseFiles.ForwardsExactlyTheReachable | crates/reld-core/src/bridge.rs:1790-1814 | A successful expansion contains a token if and only if some walk reaches it and it is neither a response file nor a driver LTO flag. |
| ResponseFiles.ExpandProbeResponseFiles | crates/reld-core/src/bridge.rs:647-662 | The tolerant loop returns the expansion with unreadable and too deep files counted as empty. |
| ResponseFiles.ProbeAgreesWithStrict | crates/reld-core/src/bridge.rs:647-662 | Whenever the strict expansion succeeds, the probe over the same files sees the same list apart from driver LTO flags. |
| ResponseFiles.ProbeSeesExactly | crates/reld-core/src/bridge.rs:647-662 | Strict or not, the probe sees exactly the tokens that name no file and stand on the command line or at the end of a readable walk of at most 16 files. |
| StripFlags.StripReldOnlyFlags | crates/reld-core/src/bridge.rs:1607-1643 | The lookahead loop returns the kept tokens and the spellings of the one division of the arguments into kept, dropped and dropped-with-value pieces. |
| StripFlags.DivisionDivides | crates/reld-core/src/bridge.rs:1607-1643 | Every command line has such a division. |
| StripFlags.DivisionIsUnique | crates/reld-core/src/bridge.rs:1607-1643 | It has only one, and its pieces put together are the command line: nothing lost, repeated or reordered. |
| StripFlags.NameEndsAtEquals | crates/reld-core/src/bridge.rs:1620-1620 | The flag name is the part before the first `=`. |
| StripByName.KindByName | crates/reld-core/src/bridge.rs:1580-1602 | The kind of every flag, by its name, in both spellings; a name outside the table has none. |
| StripByName.JoinedIsDroppedAlone | crates/reld-core/src/bridge.rs:1625-1640 | A stripped flag written with `=` is dropped alone, and what follows is judged for itself. |
| StripByName.BareIsDropped | crates/reld-core/src/bridge.rs:1625-1640 | A bare one takes the next token never, always or unless it begins with a dash, by its name, and is reported with it. |
| StripByName.OthersAreKept | crates/reld-core/src/bridge.rs:1612-1624 | Every token not written like a stripped flag is forwarded. |
| StripByName.ObjectBehindJoinedStays | crates/reld-core/src/bridge.rs:1625-1640 | `--threads=4 a.o` forwards `a.o`. |
| StripFlags.KeptHasNoReldFlag | crates/reld-core/src/bridge.rs:1580-1602 | No kept token names a flag of the table. |
| StripFlags.StrippingIsIdempotent | crates/reld-core/src/bridge.rs:1607-1643 | Stripping again keeps everything and drops nothing. |
| StripFlags.KeptAreSurvivors | crates/reld-core/src/bridge.rs:1625-1640 | A token is kept if and only if it is no stripped flag and, looking only back, not the value of one. |
| Forwarding.DropReldDispatchTokens | crates/reld-core/src/bridge.rs:1544-1559 | Drops the program, a leading `-flavor` pair and every `--engine=` token, and nothing else. |
| Forwarding.HeadIsDropped | crates/reld-core/src/bridge.rs:1544-1553 | From the head go the program and, with a `-flavor` right behind it, that and the token after it. |
| Forwarding.OnlyOverridesAreDropped | crates/reld-core/src/bridge.rs:1554-1558 | Of the rest exactly the tokens that begin with `--engine=` go; the others stay in order. |
| Forwarding.ForwardedArgsForEngine | crates/reld-core/src/bridge.rs:1678-1694 | The composition, with expansion only for the bridged GNU-syntax linkers. |
| Forwarding.ListByLinker | crates/reld-core/src/bridge.rs:1678-1694 | For each linker: response files are expanded for bridged ELF and MinGW only, and only MinGW loses one further option. |
| Forwarding.ForwardedIsClean | crates/reld-core/src/bridge.rs:1663-1694 | No stripped flag ever reaches a child; where response files are expanded, no response file and no LTO flag either; MinGW never gets `--allow-shlib-undefined`. |
| Forwarding.OverrideNeverReachesOthers | crates/reld-core/src/bridge.rs:1550-1557 | Where response files stay closed, no `--engine=` token is forwarded. |
| Forwarding.OverrideLeaksExactly | crates/reld-core/src/bridge.rs:1550-1557 | Otherwise one is forwarded if and only if it stands in a reachable response file at a place where it is not the value of the flag before it. |
| Forwarding.OverrideIsForwarded | crates/reld-core/src/bridge.rs:1678-1694 | Without a flag that requires a value, every `--engine=` token of a reachable response file is forwarded. |
| Forwarding.OverrideLeaks | crates/reld-core/src/bridge.rs:1550-1557 | A one-line response file for which it happens. |
| InvocationLog.AppendJsonString | crates/reld-core/src/bridge.rs:759-781 | Appends the quoted, escaped text. |
| InvocationLog.EscapeIs | crates/reld-core/src/bridge.rs:761-779 | What each character becomes. |
| Json.StringRoundTrip | crates/reld-core/src/bridge.rs:759-781 | A reader that follows RFC 8259, section 7, gets every string back, whatever follows it. |
| Json.ValueRoundTrip | crates/reld-core/src/bridge.rs:783-821 | A general reader gets every printed value back, nested arrays and objects included. |
| InvocationLog.EncodeInvocationRecord | crates/reld-core/src/bridge.rs:783-821 | The hand-written text is the printed JSON object of the record followed by one newline. |
| InvocationLog.RecordHasEveryArgument | crates/reld-core/src/bridge.rs:783-821 | Every argument but the program is recorded, in order. |
| InvocationLog.RecordRoundTrip | crates/reld-core/src/bridge.rs:783-821 | Decoding gives back process id, directory, engine, kind, reason, optional output and all arguments, for all strings. |
| InvocationLog.OneNewline | crates/reld-core/src/bridge.rs:819-820 | The only newline of a record is its last character. |
| InvocationLog.LogRoundTrip | crates/reld-core/src/bridge.rs:783-821 | Any concatenation of records splits into lines that decode to those records. |
| CgroupLauncher.Launcher.Release | ci/linux_linker_competition.py:477-486 | A second release is an error; the first clears the handle, writes `G` if anybody can read and closes the pipe in every case. |
| CgroupLauncher.Launcher.Terminate | ci/linux_linker_competition.py:488-493 | Closes a held pipe without writing, signals the process if it still runs, and reaps it. |
| CgroupLauncher.GoAtMostOnce | ci/linux_linker_competition.py:477-493 | Over any sequence of release and terminate calls `G` is written at most once, by the first call and only if it is a release. |
| CgroupLauncher.TargetRssSampler.Observe | ci/linux_linker_competition.py:517-527 | Nothing is sampled before exec is seen; afterwards every look adds its processes and raises the peak. |
| CgroupLauncher.MaxOfIsMaximum | ci/linux_linker_competition.py:527-527 | The running maximum is the greatest sample and is one of them. |
| Handshake.StepKeepsInv | ci/linux_linker_competition.py:556-589 | Every step of launcher, parent and monitor keeps the protocol invariant. |
| Handshake.ExecOnlyWhenReleased | ci/linux_linker_competition.py:556-589 | In every interleaving the target executes only after it joined the cgroup, the timer started and `G` was written, and `G` is written at most once. |
| Handshake.ClosedFirstNeverExecs | ci/linux_linker_competition.py:90-91 | After the go pipe is closed without `G` no continuation executes the target; a waiting launcher exits with its own code. |
| Handshake.PeakIsMaximumOfSamples | ci/linux_linker_competition.py:517-527 | The recorded peak is the maximum of exactly the tree samples taken, and at the moment of each of them exec had been seen. |
| Handshake.OneObserver | ci/linux_linker_competition.py:579-583 | Parent and monitor never observe at the same time. |
| Handshake.OnlyTheMonitorObservesExec | ci/linux_linker_competition.py:582-585 | Exec counts as seen if and only if a tick of the monitor met the target alive; a successful trial was seen that way. |
| Handshake.SucceedsExactly | ci/linux_linker_competition.py:584-589 | After the last sample the trial succeeds if and only if a tick met the target alive, some sample found a process and some sample was above zero; otherwise it raises. |
| Handshake.ShortTargetIsMissed | ci/linux_linker_competition.py:582-585 | A target that ends between two ticks: the last sample does not catch it and the trial is refused. |
| Handshake.NeverStuck | ci/linux_linker_competition.py:556-589 | In no reachable state of an unfinished trial are all parties blocked: one can take an ordinary step. |
| Handshake.TrialsAreBounded | ci/linux_linker_competition.py:556-589 | Whatever the interleaving, failures and interrupts included, also the one before the `try`, a trial takes at most 22 steps besides the looks of the monitor. |
| Handshake.TrialsCanEnd | ci/linux_linker_competition.py:556-589 | From every reachable state ordinary steps alone lead to the end of the trial. |
| Handshake.LauncherIsReaped | ci/linux_linker_competition.py:566-581 | A trial that raises or succeeds has reaped its launcher; after an interrupt before the `try` the launcher never executes the target, and one that waits for `G` stays blocked. |
| Handshake.LauncherLeftWaiting | ci/linux_linker_competition.py:566-569 | A reachable state in which that interrupt has left a launcher waiting. |
| RoundPlan.MakePlan | ci/linux_linker_competition.py:298-319 | The errors for warmups and samples, and otherwise the rounds of all blocks, and warmup w is the shuffled order turned by w places. |
| RoundPlan.WarmupsGoRound | ci/linux_linker_competition.py:317-317 | Any six warmups in a row have every contender in every position. |
| RoundPlan.PositionsAreBalanced | ci/linux_linker_competition.py:307-313 | For every shuffle and 6k samples each contender stands in each position exactly k times. |
| RoundPlan.AdjacenciesAreBalanced | ci/linux_linker_competition.py:66-73 | For every shuffle each ordered pair of different contenders is adjacent exactly k times. |
| RoundPlan.EachContenderOnce | ci/linux_linker_competition.py:307-313 | Every round runs every contender exactly once. |
| RoundPlan.RoundsAreNumbered | ci/linux_linker_competition.py:312-313 | Rounds are numbered 0 to 6k-1 and blocks have six of them. |
| Glob.AnalyzeGlobPattern | crates/reld-core/src/glob_match.rs:10-43 | Star if and only if an unescaped `*` exists; NonStar if and only if none does but an unescaped `[`, `]` or `?` does; EscapedExact if and only if there is neither and a backslash exists. |
| Glob.ScanPattern | crates/reld-core/src/glob_match.rs:18-42 | The loop alone answers the same, so the fast path agrees with it. |
| Glob.UnescapePattern | crates/reld-core/src/glob_match.rs:47-66 | The loop resolves every escape and keeps a last lone backslash. |
| Glob.ExactMatchesUnescaped | crates/reld-core/src/glob_match.rs:45-66 | A pattern that is neither Star nor NonStar matches a name, under backslash-aware matching, if and only if the name is the unescaped pattern. |
| Glob.ExactIsItself | crates/reld-core/src/glob_match.rs:11-16 | Without a backslash the pattern is its own unescaped form. |
| Glob.UnescapeEscape | crates/reld-core/src/glob_match.rs:45-66 | Unescaping an escaped name gives the name back. |
| Glob.EscapedMatchesItself | crates/reld-core/src/glob_match.rs:10-66 | An escaped name is an exact pattern and matches only itself. |

## Left out

- The deflate encoder: assumed, as premises of the compression theorems, to give for each shard byte-aligned non-final blocks that decode to it from an empty window, and a complete zlib stream for a whole section. The loops that grow its output buffer and the zstd path are not modelled.
- Parallel compression of shards and sections: pure tasks collected in order, modelled as a sequence.
- RelaxScan.CollectRelaxationDeltas: relocations come sorted with disjoint footprints, as assemblers emit them, and symbol lookup is a parameter. Symbol distances, values and section positions wrap modulo 2^64 as in a release build; a debug build panics on overflow instead. The end of a sled and its next boundary are taken without wrap-around, so a sled within one alignment of 2^64 is not modelled. Offsets and running totals are unbounded naturals, shown never to go below zero.
- RelaxDeltas.SectionRelaxDeltas.MergeAdditional: the binary searches over the sorted list are modelled by what they find, not by their probing order.
- RelaxRuns.ScanSection: the layout recomputation between passes; passes are given arbitrary section addresses and symbol answers instead.
- RelaxIterations.IterativeRelaxation: what a pass deletes is its own report; the source counts the capacity the parts give up.
- RelaxedCalls.SameSectionCallReaches: a target strictly inside a deleted range, to which no written byte corresponds; `RelaxedCallReachesTarget` covers it.
- RelaxWriter.WriteRelaxed: padding behind the copied bytes.
- Relocations rewritten for relaxed instructions (`new_relaxation`, `is_jalr_deleted`).
- LayoutRewrite.Layout.UpdateAllocationSizes: freeing the string-merge buckets, which changes no size.
- LayoutRewrite.Layout.UpdateFileOffset: which debug sections are chosen and how merge targets and the output order come about; targets are required to precede what is merged into them.
- DebugBuffer.WriteGroup: relocating a section is a function from its bytes to bytes of the same length; merged-string sections and read errors are not modelled.
- Materialise.WriteLoongArchPltEntry, Materialise.WriteAArch64PltEntry, Materialise.WriteRiscVPltEntry: the debug assertion that the PLT precedes the GOT is not assumed, and differences wrap as in a release build.
- ResponseFiles.ExpandAndStripDriverLto: reading and tokenising a file; a path maps to its tokens or cannot be read. The probe reads UTF-16 files with another decoder, which over one file map makes no difference.
- StripFlags.StripReldOnlyFlags: arguments that are not UTF-8 are known by their lossy rendering only.
- InvocationLog.EncodeInvocationRecord: the lossy conversion of paths and arguments, the environment variable that enables the log and the file it is appended to.
- Json.ReadValue: literals `true` and `false`, fractions, exponents and signs, which no record contains.
- Handshake: failure to start the interpreter, exceptions raised inside `finally` blocks, and reuse of a process id after it was reaped. The target is assumed not to write to the go pipe, which it does not inherit.
- CgroupLauncher.TargetRssSampler.Observe: how `/proc` is read; what the link and the tree sampler answer are parameters.
- RoundPlan.MakePlan: the random generator; shuffles are arbitrary permutations.
- Glob: compilation of Star and NonStar patterns by the glob library.
- Engine selection, target probing, linker discovery, process spawning, runtime-library deployment and RUNPATH derivation in the bridge: tables and I/O.
- The option parser, diagnostics, archive handling, benchmark statistics, manifests and release scripts.
