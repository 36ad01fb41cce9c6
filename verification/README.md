# Verified model of AArch64 backend passes

This project models a set of LLVM AArch64 backend passes, and the parsing core of the repository's own
scraper, and proves what their rewrites keep. Each module follows one source component; methods follow the
source's loops and in-place updates and are proved against functions or predicates whose properties are
then proved as lemmas.

- **Immediate synthesis** (`Words`, `LogicalImm`, `ImmInsns`, `ExpandSimple`, `ShortMoves`, `OrrPairs`,
  `OrrDecomposition`, `ExpandStrategies`, `SequenceOfOnes`, `CircularRuns`, `EorPairs`, `EorStrategies`, `ExpandImm`): the search for short instruction
  lists that load a constant. Words are sequences of 64 bits, least significant first; a list "builds" a value when
  executing it leaves that value whatever the register held before. The bitmask-immediate encoder and decoder
  are modelled in full.
- **Exclusive loops** (`CmpSwap`, `CmpSwapExpansion`): the compare-and-swap expansions as step systems with
  other observers, an exclusive monitor, half-reads and spurious failures, refined to an atomic swap.
- **Tag loop** (`SetTagLoop`).
- **Chain recolouring** (`MachineBlock`, `Chains`, `ChainComplete`, `ChainScan`, `Recolor`, `Coloring`,
  `RecolorOthers`, `Balance`, `ChainSets`, `LoadBalancing`): the Cortex-A57 floating-point load balancer, from the scan to the
  whole block. Operations are uninterpreted functions of the values they read.
- **Linker hints** (`LinkerHints`, `LinkerHintChains`, `AdrpAdrpHints`, `LinkerHintsExact`): the backward per-register state
  machine, and exactly which hints it reports.
- **Frame helpers** (`FrameCode`, `FrameHelpers`, `FrameLayout`, `FrameRoundTrip`, `CalleeSaves`): homogeneous prologs and epilogs,
  inline and outlined, over a small register and stack machine, and the pairing loop that lays out their lists.
- **Compares** (`Flags`, `AdjustCompare`, `ConditionOptimizer`, `CompareBlocks`, `CompareMerge`, `CompareRegion`,
  `ConditionalCompares`): exact NZCV arithmetic, the condition optimizer, and conditional-compare formation on a
  control-flow graph. `CompareRegion` runs the original graph strictly: a run that reads a register or flags
  nobody has set, which SSA form rules out, counts as no run.
- **Jump tables and constants** (`JumpTables`, `AddImmediate`).
- **Whole-function passes** (`TLSCleanup`, `FalkorPrefetch`, `A53Erratum`).
- **Scraper** (`TopLevelSplit`, `BracketedText`).

`Options` holds the option type.

## Where the code falls short of its documentation

Each of these keeps the code as it is and proves when the code is right; lemmas on concrete inputs show the failures.

- `adjustCmp` changes the direction of CMN with zero and of a shifted zero (`AdjustCompare.AdjustExact`).
- The intra-block condition optimizer checks flag writes in its window but not other readers
  (`ConditionOptimizer.OverlookedReader`, `ConditionOptimizer.RewriteExact`).
- With equal conditions the condition optimizer adjusts the wrong one of two CMNs, so it rewrites a CMN only when
  its immediate is zero, where the rewrite is wrong (`ConditionOptimizer.CmnOnlyWhenWrong`,
  `ConditionOptimizer.CmnZeroRewritten`).
- The AdrpAdrp hint can name ADRPs of two registers (`AdrpAdrpHints.AdrpAdrpMixesRegisters`,
  `AdrpAdrpHints.AdrpAdrpExact`).
- The linker-hint walk loses a chain that ends in an ADD or a GOT load when that instruction writes a register which
  starts a chain it cannot extend (`LinkerHintsExact.AddIsLost`); `LinkerHintsExact.HintsExact` says exactly when.
- The set-tag loop overruns a range of 16 bytes (`SetTagLoop.SetTagExact`).
- A Falkor rewrite of a write-back load picks the load's own dead destination as its base when that is the first
  usable register (`FalkorPrefetch.DeadDestinationIsChosen`). The load is then unpredictable, and the assembler rejects
  it; the rewrite is right exactly when this does not happen (`FalkorPrefetch.RewriteExact`), and the effect of a block
  is kept exactly when it happens to no load of the block (`FalkorPrefetch.FalkorHWPFFix.FixBlock`).
- Frame-helper names omit empty slots, so lists that differ only in where these are share a helper made for one of
  them (`FrameHelpers.NameClash`, `FrameHelpers.Lowering.GetOrCreateFrameHelper`); names are safe when every empty
  slot comes right before LR or has only floating-point registers after it (`FrameHelpers.NameDeterminesList`). The
  frame lowering's own lists are safe (`CalleeSaves.LaidOutNamesSafe`), so a clash needs another producer of lists.

## Model

| member | source | states |
|---|---|---|
| `LogicalImm.ProcessLogicalImmediate` | LLVM-Targets/AArch64/MCTargetDesc/AArch64AddressingModes.h:213-271 | Succeeds exactly on the values that repeat a power-of-two element holding one rotated, non-trivial run of ones, for both widths; the encoding it returns is valid and decodes back to the value |
| `LogicalImm.FindElementSize` | LLVM-Targets/AArch64/MCTargetDesc/AArch64AddressingModes.h:223-231 | The halving loop stops at an element size at which the value is periodic, and no run pattern of any other size can describe the value |
| `LogicalImm.LocateRun` | LLVM-Targets/AArch64/MCTargetDesc/AArch64AddressingModes.h:233-251 | The start and length found describe the run of ones of the element, wrapped or not; it refuses only values that are no logical immediate |
| `LogicalImm.EncodesPattern` | LLVM-Targets/AArch64/MCTargetDesc/AArch64AddressingModes.h:253-270 | The N:immr:imms fields built from element size, start and length decode to exactly the value they were found in |
| `LogicalImm.DecodedIsPattern` | LLVM-Targets/AArch64/MCTargetDesc/AArch64AddressingModes.h:293-316 | Every valid encoding denotes one rotated run replicated at its element size |
| `LogicalImm.DecodeLogicalImmediate` | LLVM-Targets/AArch64/MCTargetDesc/AArch64AddressingModes.h:293-316 | The rotate-and-replicate loops compute the DecodeBitMasks function for every valid encoding |
| `LogicalImm.EncodeFieldsDecodes` | LLVM-Targets/AArch64/MCTargetDesc/AArch64AddressingModes.h:261-270 | The packed fields unpack to the same size, rotation and length, and are valid |
| `ImmInsns.InsertRepairs` | LLVM-Targets/AArch64/AArch64ExpandImm.cpp:80-96 | A MOVK with a chunk of the original repairs exactly that chunk of a value that agrees elsewhere |
| `ImmInsns.BuildsNext` | LLVM-Targets/AArch64/AArch64ExpandPseudoInsts.cpp:155-241 | Appending an instruction to a list that builds v builds what the instruction makes of v, whatever the register held first |
| `ImmInsns.BuildsFirst` | LLVM-Targets/AArch64/AArch64ExpandPseudoInsts.cpp:155-241 | A first instruction that reads only the zero register builds its value for every prior register content |
| `OrrDecomposition.MaximallyReplicateSubImmediate` | LLVM-Targets/AArch64/AArch64ExpandImm.cpp:319-333 | The run is repeated at the smallest element size at which its copies stay within the value, so the result is encodable |
| `OrrDecomposition.MaximalLogicalImmWithin` | LLVM-Targets/AArch64/AArch64ExpandImm.cpp:337-350 | The run at the lowest remaining bit, repeated as often as the value allows |
| `OrrDecomposition.DecomposeIntoOrrOfLogicalImmediates` | LLVM-Targets/AArch64/AArch64ExpandImm.cpp:352-378 | For every value that is not encodable: a decomposition is returned exactly when the value is the OR of some two logical immediates and not all ones, and it is such a pair |
| `OrrPairs.GreedyCovers` | LLVM-Targets/AArch64/AArch64ExpandImm.cpp:354-374 | Two greedy replicas cover whatever any two logical immediates cover: after the first, all that is left lies in the second |
| `OrrDecomposition.RotlLogical` | LLVM-Targets/AArch64/AArch64ExpandImm.cpp:352-378 | Rotation maps logical immediates to logical immediates in both directions |
| `OrrDecomposition.NotLogical` | LLVM-Targets/AArch64/AArch64ExpandImm.cpp:406-428 | Complement maps logical immediates to logical immediates |
| `OrrDecomposition.RunIsSpan` | LLVM-Targets/AArch64/AArch64ExpandImm.cpp:307-317 | The first run found at a set bit is a contiguous span starting there, ending before a zero |
| `ExpandStrategies.TryOrrOfLogicalImmediates` | LLVM-Targets/AArch64/AArch64ExpandImm.cpp:381-401 | Succeeds exactly when the value is an OR of two logical immediates, and then the two ORRs appended build it; otherwise nothing is appended |
| `ExpandStrategies.TryAndOfLogicalImmediates` | LLVM-Targets/AArch64/AArch64ExpandImm.cpp:406-428 | Succeeds exactly when the value is an AND of two logical immediates, by De Morgan, and then the ORR and AND appended build it |
| `ExpandStrategies.TryToReplicateChunks` | LLVM-Targets/AArch64/AArch64ExpandImm.cpp:43-101 | Over any traversal order of the chunk counts: succeeds exactly when a chunk that occurs two or three times is encodable when replicated, and then the one or two MOVKs restore the value |
| `ExpandStrategies.ThreeSame` | LLVM-Targets/AArch64/AArch64ExpandImm.cpp:65-86 | With three equal chunks one MOVK is enough, and it is the position that differs |
| `ExpandStrategies.TwoSame` | LLVM-Targets/AArch64/AArch64ExpandImm.cpp:72-97 | With two equal chunks the two remaining positions are repaired, in order |
| `ExpandStrategies.CountChunks` | LLVM-Targets/AArch64/AArch64ExpandImm.cpp:47-51 | The counts are the number of occurrences of each chunk |
| `SequenceOfOnes.TrySequenceOfOnes` | LLVM-Targets/AArch64/AArch64ExpandImm.cpp:150-240 | Succeeds exactly when both a start and an end chunk exist, and then builds the value with an ORR and one or two MOVKs |
| `SequenceOfOnes.PatchedIsLogical` | LLVM-Targets/AArch64/AArch64ExpandImm.cpp:190-223 | The patched constant is one non-trivial cyclic run of ones, so the encoder cannot fail on it |
| `SequenceOfOnes.OnlyTwo` | LLVM-Targets/AArch64/AArch64ExpandImm.cpp:190-218 | At most two chunks need repair, and at least one does when the value is not encodable |
| `SequenceOfOnes.MovksRestore` | LLVM-Targets/AArch64/AArch64ExpandImm.cpp:220-239 | The MOVKs after the ORR give back the original value |
| `SequenceOfOnes.PatchChunks` | LLVM-Targets/AArch64/AArch64ExpandImm.cpp:186-217 | The loop notes exactly the chunks that interrupt the run and leaves the others |
| `EorStrategies.TryCopyWithNegation` | LLVM-Targets/AArch64/AArch64ExpandImm.cpp:265-305 | Succeeds exactly when some word with an all-ones upper half, combined with a shifted copy of itself by EOR or EON, is the value and fits the instruction budget; the list then builds the value |
| `EorStrategies.SourceIsCut` | LLVM-Targets/AArch64/AArch64ExpandImm.cpp:293-302 | The word to copy is determined by the value, the shift and the form, so testing one candidate per shift and form is enough |
| `EorStrategies.TryEorOfLogicalImmediates` | LLVM-Targets/AArch64/AArch64ExpandImm.cpp:438-527 | For every value that is neither zero, all ones nor itself a logical immediate: succeeds exactly when the value is the exclusive-or of some two logical immediates, and then the ORR and EOR appended build it; for every value exactly when one of the three candidates splits it |
| `EorStrategies.AttemptsComplete` | LLVM-Targets/AArch64/AArch64ExpandImm.cpp:491-522 | Whatever two logical immediates give by exclusive-or, one of the three attempts at the size looked up splits |
| `EorStrategies.TableSplits` | LLVM-Targets/AArch64/AArch64ExpandImm.cpp:459-478 | The number of runs is the power of two of the shorter pattern, or one more, or one less; the size the table gives for it admits a split whenever any size does, three runs left of four being split anew at twice the size |
| `EorPairs.OneOfThree` | LLVM-Targets/AArch64/AArch64ExpandImm.cpp:491-522 | Of three runs in a row within one period at least one is untouched by the longer pattern, and repeating that run leaves a logical immediate |
| `EorPairs.RunsNearRatio` | LLVM-Targets/AArch64/AArch64ExpandImm.cpp:459-467 | The exclusive-or has as many runs per period as the shorter pattern, one more or one less, and one less only if both ends of the longer pattern cancel ends of the shorter one |
| `EorPairs.PeriodIsSmallest` | LLVM-Targets/AArch64/AArch64ExpandImm.cpp:442-453 | The smallest period of the exclusive-or is the longer of the two element sizes |
| `EorStrategies.RunsInRange` | LLVM-Targets/AArch64/AArch64ExpandImm.cpp:459-473 | The number of runs counted indexes the size table within its bounds, for every value that is neither zero nor all ones |
| `EorStrategies.SmallSizeInRange` | LLVM-Targets/AArch64/AArch64ExpandImm.cpp:475-493 | The element size and run length looked up keep every shift below 64 |
| `EorStrategies.SmallIsLogical` | LLVM-Targets/AArch64/AArch64ExpandImm.cpp:505-511 | As its construction intends, the smaller candidate is encodable whenever the run is shorter than the element |
| `ExpandSimple.ExpandMOVImmSimple` | LLVM-Targets/AArch64/AArch64ExpandImm.cpp:531-594 | MOVZ or MOVN followed by MOVKs, or a fold of two equal halves, builds the value at either width with no more instructions than chunks that differ from the background, one exactly when at most one differs, and at most three at 64 bits when the two halves are equal |
| `ExpandSimple.PlaceChunks` | LLVM-Targets/AArch64/AArch64ExpandImm.cpp:571-585 | Each round adds at most one MOVK; chunks passed are in place and equal to the value |
| `ExpandSimple.FoldableIsFull` | LLVM-Targets/AArch64/AArch64ExpandImm.cpp:587-593 | When the two halves can be folded, the number of background chunks is what the caller counted |
| `ExpandImm.ExpandMOVImm` | LLVM-Targets/AArch64/AArch64ExpandImm.cpp:598-722 | For every value and both widths: the list builds exactly the value over any prior register content, with 1 to 4 instructions, at most 2 at 32 bits; one exactly when a move or a logical immediate suffices; at 64 bits at most two when an ORR and MOVK, two ORRs, an ORR and AND or an ORR and EOR of logical immediates, or a MOVN and its shifted copy by EOR or EON suffice; at most three when a chunk that occurs two or three times is encodable when replicated, a start and an end chunk of a run of ones exist, a MOVN, a MOVK and a shifted copy suffice, or the halves are equal; and never more than the better plain expansion |
| `ExpandImm.ExpandLonger` | LLVM-Targets/AArch64/AArch64ExpandImm.cpp:640-722 | All two-, three- and four-instruction strategies in order: whichever applies builds the value within four instructions, within two when one of the five two-instruction forms can, and within three when one of the three-instruction forms can |
| `ExpandImm.TryOrrMovk` | LLVM-Targets/AArch64/AArch64ExpandImm.cpp:644-668 | Succeeds exactly when some 64-bit ORR followed by some MOVK builds the value, and then appends such a pair |
| `ShortMoves.FillsSuffice` | LLVM-Targets/AArch64/AArch64ExpandImm.cpp:644-660 | The three fills of the replaced chunk are comprehensive: whatever an ORR and a MOVK can build, one of them is encodable |
| `ShortMoves.OneInsnIsSingle` | LLVM-Targets/AArch64/AArch64ExpandImm.cpp:614-629 | Whatever any single instruction of the width builds is a MOVZ or MOVN value or a logical immediate, so one instruction is emitted whenever one is enough |
| `ExpandImm.TrySingleOrr` | LLVM-Targets/AArch64/AArch64ExpandImm.cpp:622-629 | Succeeds exactly when the value, at 32 bits moved to the top, is a logical immediate, and then one ORR builds it |
| `ExpandImm.CountUniformChunks` | LLVM-Targets/AArch64/AArch64ExpandImm.cpp:602-612 | The counts are the numbers of all-ones and all-zero chunks of the width |
| `CmpSwapExpansion.ExpandCmpSwap128` | LLVM-Targets/AArch64/AArch64ExpandPseudoInsts.cpp:374-440 | The blocks built are exactly the ones whose runs CmpSwap studies |
| `CmpSwapExpansion.ExpandCmpSwap` | LLVM-Targets/AArch64/AArch64ExpandPseudoInsts.cpp:258-308 | The same for the single-location expansion, with and without a live status register |
| `CmpSwap.StepRefines` | LLVM-Targets/AArch64/AArch64ExpandPseudoInsts.cpp:379-435 | Every step of the loop, of another observer or of the monitor keeps the invariant and is one step of the atomic specification |
| `CmpSwap.RunRefines` | LLVM-Targets/AArch64/AArch64ExpandPseudoInsts.cpp:379-435 | Every run under any interference and any spurious failures is a run of one atomic compare-and-swap among the same writes in the same order; it happens at most once and has happened when the loop is done |
| `CmpSwap.PairEffect` | LLVM-Targets/AArch64/AArch64ExpandPseudoInsts.cpp:379-435 | The pair loop takes effect exactly at a successful store-exclusive, with the pair it read still in memory even though its halves were read separately; memory becomes New on a match and keeps the pair otherwise |
| `CmpSwap.QuietOtherwise` | LLVM-Targets/AArch64/AArch64ExpandPseudoInsts.cpp:379-435 | No other step of the loop writes memory |
| `CmpSwap.DoneAnswers` | LLVM-Targets/AArch64/AArch64ExpandPseudoInsts.cpp:379-435 | When the loop is done the swap happened exactly once, the answer registers hold what memory held at that instant, and the status register is zero |
| `CmpSwap.AloneFinishes` | LLVM-Targets/AArch64/AArch64ExpandPseudoInsts.cpp:379-435 | From every reachable state, without interference, a measure bounded by 18 falls with every step until the loop is done |
| `CmpSwap.CompareIsEquality` | LLVM-Targets/AArch64/AArch64ExpandPseudoInsts.cpp:1585-1605 | The extended compare of each width is equality of the loaded value with the low bits of the desired one, which are as many as the location has (`CmpSwap.WidthInBits`) |
| `SetTagLoop.ExpandSetTagLoop` | LLVM-Targets/AArch64/AArch64ExpandPseudoInsts.cpp:712-787 | The instructions emitted before and inside the loop, for every size the assertion admits |
| `SetTagLoop.SetTagExact` | LLVM-Targets/AArch64/AArch64ExpandPseudoInsts.cpp:728-762 | Run to the end, the expansion tags every granule of the range once, in order, and leaves the address just past it, exactly when the size is at least 32; at 16 the loop starts from zero and runs past the range |
| `SetTagLoop.LoopRuns` | LLVM-Targets/AArch64/AArch64ExpandPseudoInsts.cpp:748-762 | For a count of 32 k the loop makes k rounds |
| `MachineBlock.RenamingKeepsEffect` | LLVM-Targets/AArch64/AArch64A57FPLoadBalancing.cpp:528-596 | A renaming that changes from instruction to instruction keeps every value read and every live-out register, for uninterpreted operations |
| `MachineBlock.RenamingKeepsKills` | LLVM-Targets/AArch64/AArch64A57FPLoadBalancing.cpp:528-596 | Such a renaming keeps kill flags right when it is injective on live registers |
| `MachineBlock.LiveRenamed` | LLVM-Targets/AArch64/AArch64A57FPLoadBalancing.cpp:528-596 | Liveness of the renamed block is the image of the liveness of the original |
| `Chains.KillOperandKeeps` | LLVM-Targets/AArch64/AArch64A57FPLoadBalancing.cpp:678-709 | Killing or forgetting the chain of one operand keeps the scan invariant: one key per active chain, keyed by its last value, nothing mentioned since |
| `Chains.KillMaskedKeeps` | LLVM-Targets/AArch64/AArch64A57FPLoadBalancing.cpp:678-709 | The same for a register-mask operand |
| `Chains.NewChain` | LLVM-Targets/AArch64/AArch64A57FPLoadBalancing.cpp:603-619 | A chain started at a multiply keeps the invariant |
| `Chains.ExtendChain` | LLVM-Targets/AArch64/AArch64A57FPLoadBalancing.cpp:621-651 | Continuing a chain moves its key to the new destination and keeps the invariant, all chains staying disjoint |
| `ChainScan.Chain.Add` | LLVM-Targets/AArch64/AArch64A57FPLoadBalancing.cpp:206-217 | The chain grows by one instruction; a killed chain is never extended |
| `ChainScan.Chain.SetKill` | LLVM-Targets/AArch64/AArch64A57FPLoadBalancing.cpp:226-236 | The kill is recorded, always after the last definition |
| `ChainScan.Scanner.ScanInstruction` | LLVM-Targets/AArch64/AArch64A57FPLoadBalancing.cpp:598-676 | One instruction keeps the scan invariant, misses no chain and no kill, and never drops a chain |
| `ChainScan.ScanBlock` | LLVM-Targets/AArch64/AArch64A57FPLoadBalancing.cpp:330-340 | Every chain found is linked by killed accumulators nobody else mentions, is killed only after its last definition, and shares no instruction with another; every multiply is in a chain and every kill noted |
| `ChainComplete.LinksKept` | LLVM-Targets/AArch64/AArch64A57FPLoadBalancing.cpp:621-651 | Whenever one instruction could take over the value of another, some chain passes it on: the chains are maximal |
| `ChainComplete.StepComplete` | LLVM-Targets/AArch64/AArch64A57FPLoadBalancing.cpp:678-709 | A chain an instruction does not continue ends exactly at the first mention of its last value, with a kill noted when every operand that reads or clobbers it kills it |
| `Coloring.ScavengeRegister` | LLVM-Targets/AArch64/AArch64A57FPLoadBalancing.cpp:494-526 | The register returned has the color, is dead after the chain and untouched within it; failure means no register of the order is (`Recolor.NotFree` says what rules a register out) |
| `Coloring.RenameOperands` | LLVM-Targets/AArch64/AArch64A57FPLoadBalancing.cpp:550-568 | The operand loop renames every use and collects exactly the substitutions that end here |
| `Coloring.ColorChain` | LLVM-Targets/AArch64/AArch64A57FPLoadBalancing.cpp:528-596 | The new block is the old one under a recorded renaming to a free register of the color, every member repainted but one that has the color or is a last value the chain does not own; no substitution is left at the end. Nothing happens exactly when no such register is free |
| `Coloring.RenameInChain` | LLVM-Targets/AArch64/AArch64A57FPLoadBalancing.cpp:548-585 | The loop body on one instruction: uses substituted, its definition repainted exactly when the rule says so |
| `Coloring.ChainHasColor` | LLVM-Targets/AArch64/AArch64A57FPLoadBalancing.cpp:570-585 | After a recolouring every definition of the chain has the color, an even or an odd register, but for a last value that is not killed or whose kill may not be changed |
| `Recolor.StepMember` | LLVM-Targets/AArch64/AArch64A57FPLoadBalancing.cpp:544-585 | Passing a chain member replaces the pending substitution by the next one, correctly renaming the instruction |
| `Recolor.StepKill` | LLVM-Targets/AArch64/AArch64A57FPLoadBalancing.cpp:544-571 | At the mutable kill the last substitution ends |
| `Recolor.StepOther` | LLVM-Targets/AArch64/AArch64A57FPLoadBalancing.cpp:545-546 | Instructions skipped mention neither the pending value nor the new register |
| `Recolor.NothingPending` | LLVM-Targets/AArch64/AArch64A57FPLoadBalancing.cpp:586 | After the range no substitution is active |
| `RecolorOthers.RecoloringIsSound` | LLVM-Targets/AArch64/AArch64A57FPLoadBalancing.cpp:528-596 | One recolouring keeps the effect of the block on every live register and leaves correct kill flags |
| `RecolorOthers.ChainKept` | LLVM-Targets/AArch64/AArch64A57FPLoadBalancing.cpp:528-596 | Every chain that shares no instruction with the recoloured one is still a chain of the new block, with the same kill |
| `RecolorOthers.PassedNotPending` | LLVM-Targets/AArch64/AArch64A57FPLoadBalancing.cpp:543-585 | A value passed between instructions of another chain never shares its register with a pending substitution |
| `Balance.ParityBounded` | LLVM-Targets/AArch64/AArch64A57FPLoadBalancing.cpp:463-489 | At every point the planned parity is at most the largest movable chain handled so far (or the start) plus the chains that could not be moved |
| `Balance.BalancedWithinLargest` | LLVM-Targets/AArch64/AArch64A57FPLoadBalancing.cpp:463-489 | Over a block of movable chains some chain already handled is as large as the imbalance |
| `Balance.PlannedJoin` | LLVM-Targets/AArch64/AArch64A57FPLoadBalancing.cpp:393-396 | Plans of consecutive sets join into one plan of the block |
| `Balance.ColorRule` | LLVM-Targets/AArch64/AArch64A57FPLoadBalancing.cpp:463-489 | In every plan: at parity zero a chain keeps its color, one that cannot be moved always does, and any other goes to the side with less; the parity then moves by its size |
| `ChainSets.GetAndEraseNext` | LLVM-Targets/AArch64/AArch64A57FPLoadBalancing.cpp:401-435 | Removes one chain of the largest remaining size: the first of the preferred color; without one the last of that size, or the first when nothing smaller is left |
| `ChainSets.SortChains` | LLVM-Targets/AArch64/AArch64A57FPLoadBalancing.cpp:443-461 | A permutation in the comparator order: larger first, then chains needing a fixup, then program order (`Balance.BeforeMeans`) |
| `ChainSets.ColorChainSet` | LLVM-Targets/AArch64/AArch64A57FPLoadBalancing.cpp:437-492 | Keeps the effect and the kill flags of the block and every other chain; plans each chain of the set once by the parity rule, each choice being the right one among the chains still left, and carries the plan out one chain after the other |
| `ChainSets.ColorOne` | LLVM-Targets/AArch64/AArch64A57FPLoadBalancing.cpp:485 | One call of the recolouring inside a set: its outcome on this chain, and the remaining chains stay valid |
| `LoadBalancing.GroupByOverlap` | LLVM-Targets/AArch64/AArch64A57FPLoadBalancing.cpp:352-373 | A partition of the chains in which chains of different groups never overlap and each group hangs together by overlaps |
| `LoadBalancing.SortGroups` | LLVM-Targets/AArch64/AArch64A57FPLoadBalancing.cpp:375-380 | The groups in the order of their first chains' starts, none lost |
| `LoadBalancing.ApartPrecedes` | LLVM-Targets/AArch64/AArch64A57FPLoadBalancing.cpp:375-380 | Of two groups that keep apart all chains of one end before any of the other starts, so whichever chains stand first in them sort them alike |
| `LoadBalancing.NoSplit` | LLVM-Targets/AArch64/AArch64A57FPLoadBalancing.cpp:362-363 | A group that hangs together has no part that keeps apart from the rest |
| `LoadBalancing.OverlapMeans` | LLVM-Targets/AArch64/AArch64A57FPLoadBalancing.cpp:262-269 | Two chains overlap exactly when some instruction lies in both ranges, kills included |
| `LoadBalancing.RunOnBasicBlock` | LLVM-Targets/AArch64/AArch64A57FPLoadBalancing.cpp:326-399 | The whole pass on a block: same effect on every live register, correct kill flags, all chains found, each planned once starting from parity zero, group by group: the chains of a group hang together by overlaps and all end before any of a later group starts, and each choice within a group is the right one; and the plan carried out step by step; a block reported unchanged is |
| `LinkerHints.Collector.Middle` | LLVM-Targets/AArch64/AArch64CollectLOH.cpp:341-389 | The in-place update of two registers' states is the state-machine step, including the copy that survives a failed step |
| `LinkerHints.Collector.Normal` | LLVM-Targets/AArch64/AArch64CollectLOH.cpp:502-537 | Clobbers before uses, each register counted once per instruction |
| `LinkerHints.Collector.Run` | LLVM-Targets/AArch64/AArch64CollectLOH.cpp:539-592 | The directives appended are the hints of the block: of every kind but AdrpAdrp exactly those that `LinkerHintsExact.HintsExact` describes |
| `LinkerHintChains.WalkOK` | LLVM-Targets/AArch64/AArch64CollectLOH.cpp:298-592 | Before every instruction each candidate register's state describes a def-use chain whose links have one reader each; a register without a user is dead |
| `LinkerHintChains.MiddleOK` | LLVM-Targets/AArch64/AArch64CollectLOH.cpp:341-389 | A successful middle step extends the chain; a failed one leaves only what the ordinary handling settles |
| `LinkerHintChains.NormalOK` | LLVM-Targets/AArch64/AArch64CollectLOH.cpp:502-537 | Ordinary instructions keep the invariant |
| `LinkerHintChains.CandidateHintOK` | LLVM-Targets/AArch64/AArch64CollectLOH.cpp:403-487 | What an ADRP reports from a candidate state is a valid hint |
| `LinkerHintChains.HintsOK` | LLVM-Targets/AArch64/AArch64CollectLOH.cpp:391-592 | Every hint but AdrpAdrp names instructions in program order, each result read by the next link only and dead afterwards; AdrpAddLdr and AdrpAddStr end in consecutive instructions; AdrpAdd also keeps the ADD's register free |
| `LinkerHintsExact.HintsExact` | LLVM-Targets/AArch64/AArch64CollectLOH.cpp:391-592 | Exactly which hints a block gets, in both directions: an ADRP with its sole reader, and with that reader's sole reader where there are three, with the documented opcodes and adjacency; AdrpAdd and AdrpLdrGot exactly when the chain neither extends to three nor is lost, and AdrpAdd only while the ADD's register is free |
| `LinkerHintsExact.WalkExact` | LLVM-Targets/AArch64/AArch64CollectLOH.cpp:298-592 | Before every instruction the state of every register is exactly what its readers make it: used when it is live, a candidate when it starts a chain, and of that chain's kind |
| `LinkerHintsExact.AdvanceExact` | LLVM-Targets/AArch64/AArch64CollectLOH.cpp:354-389 | A middle step succeeds exactly when the register it writes has a load or store as sole reader |
| `LinkerHintsExact.AddIsLost` | LLVM-Targets/AArch64/AArch64CollectLOH.cpp:341-389 | Three instructions on which the walk loses a chain: an ADRP and the ADD that alone reads it get no AdrpAdd hint, because another ADD follows |
| `LinkerHintsExact.AdrpAdrpReported` | LLVM-Targets/AArch64/AArch64CollectLOH.cpp:391-399 | Two ADRPs of one register with no redefinition in between are reported exactly when no middle step between them overwrote the record with another register's state |
| `AdrpAdrpHints.StepKeepsLast` | LLVM-Targets/AArch64/AArch64CollectLOH.cpp:341-356 | One instruction keeps the documented meaning of AdrpAdrp exactly when no remembered ADRP is moved to another register |
| `AdrpAdrpHints.AdrpAdrpExact` | LLVM-Targets/AArch64/AArch64CollectLOH.cpp:391-399 | Every AdrpAdrp hint names two ADRPs in program order; they are of one register, not redefined between them, exactly when no middle step between them moved the record of the second to another register |
| `AdrpAdrpHints.AdrpAdrpMixesRegisters` | LLVM-Targets/AArch64/AArch64CollectLOH.cpp:347-356 | Four instructions on which the hint names ADRPs of two different registers |
| `FrameCode.Block.EmitStore` | LLVM-Targets/AArch64/AArch64LowerHomogeneousPrologEpilog.cpp:191-230 | One store appended, its immediate scaled by the opcode, in slots or bytes as `FrameCode.ImmediatesCount` says |
| `FrameCode.Block.EmitLoad` | LLVM-Targets/AArch64/AArch64LowerHomogeneousPrologEpilog.cpp:232-271 | One load appended, its immediate scaled by the opcode, in slots or bytes as `FrameCode.ImmediatesCount` says |
| `FrameHelpers.NameDeterminesList` | LLVM-Targets/AArch64/AArch64LowerHomogeneousPrologEpilog.cpp:126-150 | A name determines the register list it was made for, empty slots included, whenever each empty slot comes right before LR or has only floating-point registers after it |
| `FrameHelpers.SameNameSameShape` | LLVM-Targets/AArch64/AArch64LowerHomogeneousPrologEpilog.cpp:126-150 | Two lists with one name are equal exactly when their empty slots are in the same places |
| `FrameHelpers.BodyDetermines` | LLVM-Targets/AArch64/AArch64LowerHomogeneousPrologEpilog.cpp:303-376 | The code of a helper, of any kind, determines its list, so a helper found under the name of another list is the wrong one |
| `FrameHelpers.NameClash` | LLVM-Targets/AArch64/AArch64LowerHomogeneousPrologEpilog.cpp:144-148 | Two lists the pass accepts, though the frame lowering lays out only one of them, that get the same name with different helpers for every kind |
| `CalleeSaves.ComputeCalleeSaveRegisterPairs` | LLVM-Targets/AArch64/AArch64FrameLowering.cpp:1734-1923 | The pairing loop computes the layout, for 64-bit general and floating-point registers outside Windows |
| `CalleeSaves.LaidOutSaves` | LLVM-Targets/AArch64/AArch64FrameLowering.cpp:1734-1923 | Distinct registers with no lone float are laid out as a list the homogeneous pass accepts |
| `CalleeSaves.FrameRecordPaired` | LLVM-Targets/AArch64/AArch64FrameLowering.cpp:1599-1614 | With a frame record, LR begins a pair that FP ends |
| `CalleeSaves.OrderFixesGaps` | LLVM-Targets/AArch64/AArch64FrameLowering.cpp:1734-1923 | With general registers first, an empty slot comes only right before LR or before the floats |
| `CalleeSaves.LaidOutNamesSafe` | LLVM-Targets/AArch64/AArch64LowerHomogeneousPrologEpilog.cpp:126-150 | Whatever the order of the registers and with or without a frame record, two laid-out lists with one name are equal |
| `CalleeSaves.LaidOutIsOurs` | LLVM-Targets/AArch64/AArch64LowerHomogeneousPrologEpilog.cpp:303-376 | When all helpers were made for laid-out lists, every such list gets the helper made for it |
| `FrameHelpers.Lowering.GetOrCreateFrameHelper` | LLVM-Targets/AArch64/AArch64LowerHomogeneousPrologEpilog.cpp:303-376 | The helper found or made under the name is the one for these registers exactly when the name is new or was first made for this very list; no other helper changes |
| `FrameHelpers.Lowering.CreateFrameHelper` | LLVM-Targets/AArch64/AArch64LowerHomogeneousPrologEpilog.cpp:313-373 | The body emitted for each of the four kinds |
| `FrameHelpers.Lowering.LowerProlog` | LLVM-Targets/AArch64/AArch64LowerHomogeneousPrologEpilog.cpp:548-622 | The call and its store, or the inline code, by the size and LR rules; the helper called is the right one exactly when its name was not taken by another list, and always when empty slots are fixed by LR or floats |
| `FrameHelpers.Lowering.LowerEpilog` | LLVM-Targets/AArch64/AArch64LowerHomogeneousPrologEpilog.cpp:458-524 | The tail call, the call, or the inline code, by the size, X16 and return rules; the helper is the right one under the same exact condition |
| `FrameHelpers.PrologPays` | LLVM-Targets/AArch64/AArch64LowerHomogeneousPrologEpilog.cpp:385-434 | A prolog calls a helper exactly when LR is saved and all but one of the instructions of its inline form are as many as the threshold |
| `FrameHelpers.EpilogPays` | LLVM-Targets/AArch64/AArch64LowerHomogeneousPrologEpilog.cpp:385-434 | An epilog does exactly when LR is saved and its loads are as many as the threshold, with a following return counted, or else X16 free |
| `FrameLayout.StoreStep` | LLVM-Targets/AArch64/AArch64LowerHomogeneousPrologEpilog.cpp:191-230 | A store fills exactly the slots of its pair, the lower one when it is unpaired |
| `FrameLayout.LoadStep` | LLVM-Targets/AArch64/AArch64LowerHomogeneousPrologEpilog.cpp:232-271 | A load gives its pair back its kept values and touches no other register |
| `FrameRoundTrip.InlinePrologRuns` | LLVM-Targets/AArch64/AArch64LowerHomogeneousPrologEpilog.cpp:607-617 | The inline prolog builds the frame, SP and FP |
| `FrameRoundTrip.HelperPrologRuns` | LLVM-Targets/AArch64/AArch64LowerHomogeneousPrologEpilog.cpp:320-352 | Call-site store and helper together build the same frame, and the helper returns to the call site |
| `FrameRoundTrip.PrologCorrect` | LLVM-Targets/AArch64/AArch64LowerHomogeneousPrologEpilog.cpp:583-618 | Whichever form was chosen, every saved register is in its slot, other memory and registers are unchanged but for LR, and SP and FP are right |
| `FrameRoundTrip.PrologsAgree` | LLVM-Targets/AArch64/AArch64LowerHomogeneousPrologEpilog.cpp:583-618 | Two prologs of one list leave the same memory, SP and registers, LR excepted |
| `FrameRoundTrip.EpilogHelperRuns` | LLVM-Targets/AArch64/AArch64LowerHomogeneousPrologEpilog.cpp:355-372 | The plain helper restores the frame and returns through X16 to the call site |
| `FrameRoundTrip.EpilogTailRuns` | LLVM-Targets/AArch64/AArch64LowerHomogeneousPrologEpilog.cpp:355-372 | The tail helper restores the frame and returns through the restored LR |
| `FrameRoundTrip.EpilogCorrect` | LLVM-Targets/AArch64/AArch64LowerHomogeneousPrologEpilog.cpp:487-514 | Whichever form was chosen, every register is loaded from its slot, SP is released, and X16 survives when it is live |
| `FrameRoundTrip.EpilogUndoesProlog` | LLVM-Targets/AArch64/AArch64LowerHomogeneousPrologEpilog.cpp:458-622 | Any epilog after any prolog restores every saved register and SP, if the body left SP and the frame alone |
| `FrameRoundTrip.SaveAndRestore` | LLVM-Targets/AArch64/AArch64LowerHomogeneousPrologEpilog.cpp:458-622 | The same for the code the pass emits, calls included |
| `FrameRoundTrip.InlineEncodable` | LLVM-Targets/AArch64/AArch64LowerHomogeneousPrologEpilog.cpp:216-223 | Up to 30 positions every inline offset fits its instruction |
| `FrameRoundTrip.HelperEncodable` | LLVM-Targets/AArch64/AArch64LowerHomogeneousPrologEpilog.cpp:257-264 | Up to 30 positions every helper offset fits its instruction |
| `Flags.SubsMeaning` | LLVM-Targets/AArch64/Utils/AArch64BaseInfo.h:288-304 | After a subtract the signed, equality, carry and overflow conditions are comparisons of the operands, for every value at both widths |
| `Flags.AddsMeaning` | LLVM-Targets/AArch64/Utils/AArch64BaseInfo.h:288-304 | The same for an add |
| `Flags.InvertFlips` | LLVM-Targets/AArch64/Utils/AArch64BaseInfo.h:337-341 | The inverted condition is the negation, for every condition but the unconditional ones |
| `Flags.ChosenFlagsSatisfy` | LLVM-Targets/AArch64/Utils/AArch64BaseInfo.h:377-397 | The flags chosen for a condition satisfy it, and those chosen for its inverse do not |
| `AdjustCompare.AdjustExact` | LLVM-Targets/AArch64/AArch64ConditionOptimizer.cpp:290-316 | For GT and LT at both widths the adjusted compare takes the same direction for every register value exactly when the immediate is unshifted and the compare is not CMN with zero; the immediate stays in 12 bits |
| `AdjustCompare.OthersCanTell` | LLVM-Targets/AArch64/AArch64ConditionOptimizer.cpp:290-316 | Any other condition sees a different outcome for some register value, except HI and LS when CMN 1 becomes CMN 0 |
| `AdjustCompare.CompareMeaning` | LLVM-Targets/AArch64/AArch64ConditionOptimizer.cpp:290-316 | Each signed condition after CMP or CMN compares the signed register with the threshold |
| `ConditionOptimizer.FindSuitableCompare` | LLVM-Targets/AArch64/AArch64ConditionOptimizer.cpp:227-262 | Returns the adjustable compare that controls the final branch, nothing between touching the flags, and none exactly when there is none; which compares can be adjusted is in `AdjustCompare.CanAdjustMeans` |
| `ConditionOptimizer.OptimizeCrossBlock` | LLVM-Targets/AArch64/AArch64ConditionOptimizer.cpp:527-633 | Changes the blocks exactly when the two controlling compares are one or two apart in the way it looks for; it then adjusts the compare of one or both with its branch and leaves them alike |
| `ConditionOptimizer.CrossExact` | LLVM-Targets/AArch64/AArch64ConditionOptimizer.cpp:527-633 | A block rewritten this way has the same outcomes for every register value exactly when its compare is one the adjustment handles |
| `ConditionOptimizer.OptimizeIntraBlock` | LLVM-Targets/AArch64/AArch64ConditionOptimizer.cpp:409-524 | Changes the block exactly when the first two compare and CSINC pairs are one apart in a clean window; it then adjusts one compare and its CSINC and leaves the two compares alike |
| `ConditionOptimizer.RewriteExact` | LLVM-Targets/AArch64/AArch64ConditionOptimizer.cpp:409-524 | All readers see the same outcomes exactly when the compare is adjustable and no other reader in its window can tell the new flags |
| `ConditionOptimizer.OverlookedReader` | LLVM-Targets/AArch64/AArch64ConditionOptimizer.cpp:456-474 | A well-formed block on which the pass fires although a select between the compares changes its outcome |
| `ConditionOptimizer.CmnOnlyWhenWrong` | LLVM-Targets/AArch64/AArch64ConditionOptimizer.cpp:603-629 | With equal conditions a CMN is only ever rewritten when its immediate is zero, where the rewrite is wrong |
| `ConditionOptimizer.OneApartMeans` | LLVM-Targets/AArch64/AArch64ConditionOptimizer.cpp:603-629 | With equal conditions the pass fires exactly on one opcode and register with immediates k and k + 1, for a CMP under either condition and for a CMN only under GT at zero |
| `ConditionOptimizer.TwoApartMeans` | LLVM-Targets/AArch64/AArch64ConditionOptimizer.cpp:575-602 | With opposite conditions it fires exactly on x > k and x < k + 2 for a CMP, its mirror image for a CMN, and x > -2 with x < 0 |
| `ConditionOptimizer.CmnZeroRewritten` | LLVM-Targets/AArch64/AArch64ConditionOptimizer.cpp:490-515 | A well-formed block of two CMN and CSINC pairs, with immediates zero and one, on which the pass fires and changes an outcome |
| `CompareMerge.TermIsCondition` | LLVM-Targets/AArch64/AArch64ConditionalCompares.cpp:271-295 | A conditional terminator goes to a target exactly when its condition code, after an explicit compare for cbz or cbnz, holds |
| `CompareMerge.SkippedGoesToTail` | LLVM-Targets/AArch64/AArch64ConditionalCompares.cpp:679-697 | If Head would have gone to Tail the merged code goes to Tail and changes nothing Tail can see |
| `CompareMerge.TakenRunsBlock` | LLVM-Targets/AArch64/AArch64ConditionalCompares.cpp:643-708 | If Head would have gone to the compare block the merged code computes what the block computed and goes where it went |
| `CompareRegion.MergeRefines` | LLVM-Targets/AArch64/AArch64ConditionalCompares.cpp:567-714 | Merging one more block keeps: the merged Head goes where the original region went, knowing everything the original knew |
| `CompareRegion.RegionGrow` | LLVM-Targets/AArch64/AArch64ConditionalCompares.cpp:567-714 | Counting one more block as removed continues exactly the runs that reached it |
| `ConditionalCompares.RenamedKeeps` | LLVM-Targets/AArch64/AArch64ConditionalCompares.cpp:609 | After the transfer a PHI takes from Head what it took from the removed block |
| `ConditionalCompares.WithoutKeeps` | LLVM-Targets/AArch64/AArch64ConditionalCompares.cpp:240-253 | Dropping the removed block's operands leaves what other predecessors bring |
| `ConditionalCompares.MergeKeepsInv` | LLVM-Targets/AArch64/AArch64ConditionalCompares.cpp:567-714 | One merge keeps graph shape, single assignment, PHI values per edge, reachability of Head and the refinement |
| `ConditionalCompares.SSACCmpConv.FindConvertibleCompare` | LLVM-Targets/AArch64/AArch64ConditionalCompares.cpp:297-374 | Returns the compare, cbz or cbnz that controls the terminator and fits a ccmp with nothing after it touching the flags, and none exactly when there is none |
| `ConditionalCompares.SSACCmpConv.CanSpeculateInstrs` | LLVM-Targets/AArch64/AArch64ConditionalCompares.cpp:380-432 | True exactly when the block has no live-ins, is within the limit, and everything but the compare is free of memory access and does not set the flags |
| `ConditionalCompares.SSACCmpConv.CanConvert` | LLVM-Targets/AArch64/AArch64ConditionalCompares.cpp:436-565 | Success means an accepted triangle with both condition codes right for its branch directions; failure means no successor of the block forms one; `ConditionalCompares.AcceptedExactly` writes out what is accepted |
| `ConditionalCompares.OneTriangle` | LLVM-Targets/AArch64/AArch64ConditionalCompares.cpp:442-457 | Only one successor can be the block merged, so trying one order of the two is enough |
| `ConditionalCompares.SSACCmpConv.Convert` | LLVM-Targets/AArch64/AArch64ConditionalCompares.cpp:567-714 | The graph becomes the merged graph: PHIs, Head's code, successors, and the block gone |
| `ConditionalCompares.SSACCmpConv.TryConvert` | LLVM-Targets/AArch64/AArch64ConditionalCompares.cpp:908-921 | The repetition terminates and keeps the invariant; every graph but the last was worth merging to the cost model, and the next one is it with one accepted triangle merged; if the last is worth merging no candidate is left |
| `ConditionalCompares.MergesPreserve` | LLVM-Targets/AArch64/AArch64ConditionalCompares.cpp:908-921 | However often Head was merged: from every initial state the same successor, every known register, and the same value for each PHI there |
| `JumpTables.CompressJumpTables.ScanFunction` | LLVM-Targets/AArch64/AArch64CompressJumpTables.cpp:82-102 | The offsets stored are the running worst-case offsets of all blocks, which `JumpTables.EstimatesHold` and `JumpTables.EstimateReached` show to be bounds that are met; fails exactly on inline assembly |
| `JumpTables.ComputeBlockSize` | LLVM-Targets/AArch64/AArch64CompressJumpTables.cpp:67-80 | The sum of the estimated sizes, absent exactly when there is inline assembly |
| `JumpTables.CompressJumpTable` | LLVM-Targets/AArch64/AArch64CompressJumpTables.cpp:104-156 | A result is a table whose reach and quotients fit, in two bytes only when one is not enough; none means the reach or the span is too large |
| `JumpTables.CompressJumpTables.Run` | LLVM-Targets/AArch64/AArch64CompressJumpTables.cpp:158-180 | Every entry recorded was chosen from the estimated offsets of a jump in the function, and every other table is empty or cannot be compressed |
| `JumpTables.ShrinksAcross` | LLVM-Targets/AArch64/AArch64CompressJumpTables.cpp:88-99 | Where instructions and gaps are instruction multiples within their estimates, distances to later blocks are too |
| `JumpTables.LaidOutIsReal` | LLVM-Targets/AArch64/AArch64CompressJumpTables.cpp:88-99 | In every layout that puts blocks at the first address of their power-of-two alignment, with instructions no longer than estimated, every gap is an instruction multiple within the padding assumed |
| `JumpTables.PaddingIsWorst` | LLVM-Targets/AArch64/AArch64CompressJumpTables.cpp:88-99 | The padding assumed for an alignment is the largest gap any layout can need, and some layout needs it |
| `JumpTables.EstimatesHold` | LLVM-Targets/AArch64/AArch64CompressJumpTables.cpp:82-102 | In every such layout the real distance from any instruction to a later block is an instruction multiple no longer than estimated |
| `JumpTables.EstimateReached` | LLVM-Targets/AArch64/AArch64CompressJumpTables.cpp:82-102 | When every instruction is as long as estimated and every gap full, the distance is the estimate |
| `JumpTables.EmitJumpTable` | LLVM-Targets/AArch64/AArch64AsmPrinter.cpp:1331-1379 | The printed table holds, entry by entry, the truncated distance of each target from the base, lowest byte first (`JumpTables.LittleEndian`) |
| `JumpTables.LowerJumpTableDest` | LLVM-Targets/AArch64/AArch64AsmPrinter.cpp:1513-1566 | For every base, table, entry and prior register content, running the code returned computes the base plus the entry, zero-extended and counted in instructions for one and two bytes, sign-extended for four |
| `JumpTables.CompressJumpTables.JumpsDecode` | LLVM-Targets/AArch64/AArch64CompressJumpTables.cpp:158-180 | After the pass, in every layout by alignment with instructions no longer than estimated, every jump through a table, lowered and printed with the entry size recorded, goes to the block its table names; with one jump for the table its ADR reaches the base |
| `JumpTables.BlocksAligned` | LLVM-Targets/AArch64/AArch64CompressJumpTables.cpp:122 | The estimated block offsets are multiples of four, as the pass asserts |
| `JumpTables.EntryDecodes` | LLVM-Targets/AArch64/AArch64AsmPrinter.cpp:1513-1566 | Whatever code lowers and whatever bytes print a table, an entry that fits leads to its target |
| `JumpTables.CompressedDecodes` | LLVM-Targets/AArch64/AArch64CompressJumpTables.cpp:104-156 | In every layout by alignment the ADR of a compressed table is within a mebibyte of its base and every entry decodes to its block |
| `JumpTables.UncompressedDecodes` | LLVM-Targets/AArch64/AArch64AsmPrinter.cpp:1526-1540 | A table left alone is relative to a labelled ADR and decodes too |
| `AddImmediate.EmitAddImm` | LLVM-Targets/AArch64/AArch64AsmPrinter.cpp:2444-2485 | For every 64-bit addend the code adds exactly it modulo 2^64 in encodable instructions: none for zero, one or two below 2^24, else three, four or five as the addend fits 32, 48 or 64 bits and a sign |
| `AddImmediate.NeedMovk` | LLVM-Targets/AArch64/AArch64AsmPrinter.cpp:2465-2474 | True exactly when some remaining 16-bit piece differs from the fill |
| `AddImmediate.EmitSmall` | LLVM-Targets/AArch64/AArch64AsmPrinter.cpp:2449-2458 | Below 2^24 one immediate, or two from 2^12 on, add the value |
| `AddImmediate.EmitResignAddend` | LLVM-Targets/AArch64/AArch64AsmPrinter.cpp:2322-2358 | The other expansion adds the same constant, for every addend outside the 9-bit range, in a move, a MOVK for each higher piece that is not zero, and an add, or in at most two immediates |
| `AddImmediate.PartialMore` | LLVM-Targets/AArch64/AArch64AsmPrinter.cpp:2475-2476 | Each MOVK replaces one piece of the fill by the piece of the addend |
| `TLSCleanup.LDTLSCleanup.VisitNode` | LLVM-Targets/AArch64/AArch64CleanupLocalDynamicTLSPass.cpp:60-91 | Every block of the dominator subtree is rewritten with the register its dominators left; other blocks are untouched |
| `TLSCleanup.LDTLSCleanup.RewriteBlock` | LLVM-Targets/AArch64/AArch64CleanupLocalDynamicTLSPass.cpp:65-84 | One block: copies when a register is in hand, otherwise the first call kept and recorded |
| `TLSCleanup.AtMostOneCall` | LLVM-Targets/AArch64/AArch64CleanupLocalDynamicTLSPass.cpp:60-91 | On every downward path of the dominator tree at most one call survives, none below a recorded one |
| `TLSCleanup.Arrives` | LLVM-Targets/AArch64/AArch64CleanupLocalDynamicTLSPass.cpp:60-91 | The register a block copies from was created by a dominator, or earlier in the block |
| `TLSCleanup.SameX0` | LLVM-Targets/AArch64/AArch64CleanupLocalDynamicTLSPass.cpp:93-133 | Along every execution that visits dominators first, with instructions free to act differently on each visit of a block, x0 has the same value after every instruction as in the original |
| `FalkorPrefetch.FalkorHWPFFix.BuildTagMap` | LLVM-Targets/AArch64/AArch64FalkorHWPFFix.cpp:670-681 | Each bucket holds exactly the loads with its tag, in program order, and none is empty; `FalkorPrefetch.SameTag` says when tags are equal |
| `FalkorPrefetch.SameTag` | LLVM-Targets/AArch64/AArch64FalkorHWPFFix.cpp:224-226 | Two loads have one tag exactly when their tag destinations and bases agree modulo 16 and their offset fields, nothing, a register or a value in words, agree modulo 64; every load has a tag unless its offset is a symbol |
| `FalkorPrefetch.CollisionsAre` | LLVM-Targets/AArch64/AArch64FalkorHWPFFix.cpp:670-681 | The colliding pairs are exactly the pairs of loads alike in this sense |
| `FalkorPrefetch.FalkorHWPFFix.FixLoad` | LLVM-Targets/AArch64/AArch64FalkorHWPFFix.cpp:711-802 | Fixes a load exactly when it is strided, collides, and some register is free after it, unread by it, unreserved and gives a fresh tag; it then gets the first such register in class order, the map stays exact, the colliding pairs get strictly fewer, and buckets never grow |
| `FalkorPrefetch.FixableExactly` | LLVM-Targets/AArch64/AArch64FalkorHWPFFix.cpp:711-752 | While the buckets are right a load can be fixed exactly when it is strided, another load is like it, and some register is free after it, unread by it, unreserved and makes it like no load of the loop |
| `FalkorPrefetch.FewerCollisions` | LLVM-Targets/AArch64/AArch64FalkorHWPFFix.cpp:784-799 | Moving a colliding load to an unused tag removes a colliding pair and adds none |
| `FalkorPrefetch.MoveKeepsConsistent` | LLVM-Targets/AArch64/AArch64FalkorHWPFFix.cpp:784-795 | Swap, pop and push keep every bucket exact |
| `FalkorPrefetch.RewriteExact` | LLVM-Targets/AArch64/AArch64FalkorHWPFFix.cpp:757-782 | For a base chosen as the pass does, the load between its moves leaves every live register and memory as the load did, for all operations and states, exactly when it is no write-back load with the new base among its destinations; that form is unpredictable and may leave anything behind |
| `FalkorPrefetch.FalkorHWPFFix.FixBlock` | LLVM-Targets/AArch64/AArch64FalkorHWPFFix.cpp:707-804 | One block backwards: the loads and tags are those of the scan; live-out registers and memory effects are unchanged exactly when the scan of the original block gives no write-back load one of its own destinations, and so whenever every destination of a strided write-back load is live after it, read by it, reserved, outside the class, or makes a taken tag; no load can be fixed any further, one colliding pair fewer for each load fixed |
| `FalkorPrefetch.FalkorHWPFFix.RunOnLoop` | LLVM-Targets/AArch64/AArch64FalkorHWPFFix.cpp:669-805 | The whole loop: the loads and tags are those of scanning the blocks in turn from the initial tags; only strided loads change, and only to an unreserved base of the class; the effect of each block is unchanged exactly when its scan, checked on the original loop, gives no write-back load one of its own destinations; exact buckets, at least one colliding pair fewer per load fixed, and no load left that could still be fixed |
| `FalkorPrefetch.UnfixableStays` | LLVM-Targets/AArch64/AArch64FalkorHWPFFix.cpp:731-799 | A load that cannot be fixed when it is visited never becomes fixable, since tags are never freed and buckets never grow |
| `FalkorPrefetch.DeadDestinationIsChosen` | LLVM-Targets/AArch64/AArch64FalkorHWPFFix.cpp:732-752 | A colliding write-back load whose only usable register is its own dead destination: it is fixable, that register is the first usable one, and the rewrite is wrong, whether or not the old base is read later |
| `FalkorPrefetch.WildShows` | LLVM-Targets/AArch64/AArch64FalkorHWPFFix.cpp:757-782 | A block with an unpredictable load does not do what a block without one does |
| `A53Erratum.A53Fix835769.Run` | LLVM-Targets/AArch64/AArch64A53Fix835769.cpp:113-128 | Afterwards no memory operation is followed, ignoring pseudos and across pure fall-through, by an accumulating multiply; erasing NOPs gives back every block; and the NOPs added are as many as such pairs there were |
| `A53Erratum.A53Fix835769.RunOnBasicBlock` | LLVM-Targets/AArch64/AArch64A53Fix835769.cpp:190-240 | One block keeps all earlier blocks safe and becomes safe itself |
| `A53Erratum.A53Fix835769.GetLastNonPseudo` | LLVM-Targets/AArch64/AArch64A53Fix835769.cpp:132-171 | The block found ends what falls into this one; everything between is pseudo |
| `A53Erratum.A53Fix835769.FindSequences` | LLVM-Targets/AArch64/AArch64A53Fix835769.cpp:200-228 | The positions listed are exactly those that end the pattern |
| `A53Erratum.A53Fix835769.InsertNops` | LLVM-Targets/AArch64/AArch64A53Fix835769.cpp:233-237 | A NOP before every listed position but a leading one |
| `A53Erratum.NopKeepsSafe` | LLVM-Targets/AArch64/AArch64A53Fix835769.cpp:173-188 | A NOP at the end of the block fallen through keeps every earlier block safe and is what flows in |
| `A53Erratum.RepairedSafe` | LLVM-Targets/AArch64/AArch64A53Fix835769.cpp:190-240 | Code with the NOPs inserted is safe after any prefix |
| `A53Erratum.NopNeeded` | LLVM-Targets/AArch64/AArch64A53Fix835769.cpp:200-237 | Without a NOP inserted the multiply-accumulate it stands before would directly follow a memory operation, whatever comes after |
| `A53Erratum.RepairedLength` | LLVM-Targets/AArch64/AArch64A53Fix835769.cpp:200-237 | Exactly one NOP for each multiply-accumulate that directly follows a memory operation |
| `TopLevelSplit.SplitTopLevel` | scrapers/grab_cmd.py:70-102 | The loop computes the parts of the scan from the neutral state, which `BracketedText.SplitsOutermost` describes for every text |
| `BracketedText.SplitsOutermost` | scrapers/grab_cmd.py:70-102 | A text made of characters, escapes, quotes and nested groups, with whatever is left open at its end, is split exactly at the separators among its outermost pieces: none inside a group, between quotes or after a backslash ends a part, every other one does |
| `BracketedText.EveryTextReads` | scrapers/grab_cmd.py:70-102 | Every text is such a text |
| `BracketedText.ScanBalanced` | scrapers/grab_cmd.py:79-100 | Scanning balanced text from any mode outside quotes and escapes leads back to that mode |
| `TopLevelSplit.JoinUndoesSplit` | scrapers/grab_cmd.py:70-102 | Joining the parts with the separator returns the text, for every text and separator |
| `TopLevelSplit.PartsSplitAlone` | scrapers/grab_cmd.py:70-102 | Splitting any part again returns it alone |
| `TopLevelSplit.SplitUndoesJoin` | scrapers/grab_cmd.py:70-102 | Splitting a join returns the list exactly when every part splits alone, every part but the last ends outside quotes, escapes and brackets, and the separator can split at all |
| `TopLevelSplit.Walk` | scrapers/grab_cmd.py:62-67 | The stack loop visits the tree in recursive preorder |

## Left out

- Cost models, trace metrics, statistics, debug locations and branch probabilities: they choose among
  rewrites but do not change them; cost answers are arbitrary where they decide.
- Sub-register aliasing, renamable, dead and undef flags, and implicit operands beyond those named.
- Acquire and release ordering beyond the exclusive monitor, and the fairness of the other observers.
- Real floating-point values: floating-point operations are uninterpreted functions.
- LLVM's analyses that the passes call (dominator trees, live-ins, predecessor lists, branch analysis, SCEV,
  register classes): their results are inputs.
- ChainSets.ColorChainSet: the debugging option that overrides a chain's preferred color is absent, and one allocation order
  serves all floating-point classes.
- LinkerHints.Collector.Run: when an ADD writes an untracked register the code reads its state array at -1; the model takes
  an arbitrary value there, and debug instructions are absent from its blocks.
- FrameHelpers.Lowering.LowerProlog: asks that LR, when saved, is at an even index with FP next, as the frame lowering lays lists out (`CalleeSaves.FrameRecordPaired`);
  the character encoding of helper names is the list of printed registers.
- FrameRoundTrip.SaveAndRestore: memory is a function from 8-byte slots, so misaligned overlap is absent.
- ConditionalCompares.SSACCmpConv.TryConvert: one Head at a time, with a set of blocks that reaches it from the entry; the dominator-tree and
  loop-info updates are not modelled, and flags are not live across block boundaries.
- ConditionOptimizer.OptimizeCrossBlock: which registers are copies of one another and which blocks are analyzable are inputs.
- JumpTables.CompressJumpTables.JumpsDecode: offsets are unbounded integers; the reach of the ADR is promised for tables with one jump.
- AddImmediate.EmitResignAddend: the form that fits the pre-indexed load's 9-bit offset is a single instruction and is not modelled.
- TLSCleanup.LDTLSCleanup.VisitNode: the register a block creates is named after the block.
- CalleeSaves.ComputeCalleeSaveRegisterPairs: frame indices and offsets, hazard padding, Windows, and vector and predicate
  registers are absent; the homogeneous pass excludes them or does not see them.
- FalkorPrefetch.FalkorHWPFFix.RunOnLoop: the opcode table is reduced to the operands that matter; marking strided accesses is an input.
- A53Erratum.A53Fix835769.Run: which instructions count as memory operations, multiply-accumulates and pseudos, and which edges fall
  through, are inputs.
- SetTagLoop.SetTagExact: the wrap of the address register is not modelled.
- The tree-sitter, command-line, subprocess and JSON parts of the scraper, and its keyword heuristics.
- Other passes of the backend, which lean on generated tables or would add only single-decision members.
