# srv32 in Dafny

A model of the parts of srv32 - a RISC-V instruction-set simulator and the benchmark programs it
runs - whose correctness rests on more than one function, with proofs about every input, every run
or every reachable state.

`dafny verify dfyconfig.toml` verifies the project with Dafny 4.11.

## What is modelled

**The linked-list benchmark** (`core_list.dfy`, `merge_order.dfy`, `merge_sort.dfy`,
`list_search.dfy`, `bench_list.dfy`, `list_indices.dfy`, `list_init.dfy`, `init_bench.dfy`). Nodes
and data are heap objects. The bottom-up merge sort relinks them in place under any total preorder,
among them the comparator that replaces each key by a cached result at its first use. What the
benchmark returns is told round by round of its search: which node answers, where every node goes,
which bit is added. The benchmark's claim to leave the list as it was is proved for the whole
function, with the two kernels it calls left arbitrary: data always come back, and the order does in
every run exactly when the initialization has given no index twice. When that is, for every seed and
size, is a theorem of its own; it is so for the seeds of the benchmark's own runs, and never from 323
blocks on.

**The breakpoint map** (`map_tree.dfy`, `map.dfy`). A red-black tree with parent pointers.
`map_tree.dfy` holds the tree as a value and the theory of it; `map.dfy` the rotations, the repair
loop, insertion and deletion on the heap. Insertions keep a red-black tree whose height is
logarithmic. Deletion is that of a plain search tree: the exact condition under which it keeps the
black heights equal is a theorem, and three keys suffice to break it.

**The simulator** (`rv_machine.dfy`, `rv_theory.dfy`, `rv_traps.dfy`, `rv_runs.dfy`, `rv_views.dfy`,
`rv_meaning.dfy`, `rv_steps.dfy`, `rv_access.dfy`, `rv_system.dfy`, `rvsim.dfy`). `rvsim.dfy` is the
simulator as a class that updates registers, memory and control registers in place, for RV32IM
without compressed instructions. Its step and its execution loop end in the state of a machine whose
x0 is hard-wired, although it clears x0 only when a step begins. About that machine, over steps and
runs of any length, it is proved when interrupts are entered, that a handler returns to the
interrupted instruction, that a program without system instructions and devices cannot tell an
interrupt whose handler puts registers and memory back, which instruction the trap of a misaligned
jump names, for which addresses the range test of memory fails, that memory and control registers
read back what was written, and that the immediates invert their encodings. What a step does on each
encoded word of RV32IM is stated in plain arithmetic: where it goes, what every register, every byte
of memory and every control register holds afterwards, and which trap is taken.

**Arithmetic of the simulator** (`multiply_divide.dfy`, `carry_less.dfy`, `bit_counts.dfy`).
Multiplications give exact 64-bit products, divisions are truncating and unique, the three
carry-less multiplications are windows on one product of polynomials, and the bit-counting tricks
count what they should.

**The two RV32C decoders** (`instructions.dfy`, `decompress.dfy`, `compressed.dfy`,
`disassembly.dfy`). The expander and the disassembler are compared with chapter 16 of the RISC-V
Unprivileged ISA 20191213 and with each other on all 16-bit parcels. Each departs from the standard
on a small family of parcels, which the theorems describe exactly.

**The decoders on the machine** (`words.dfy`, `rv_words.dfy`, `rv_effects.dfy`, `rv_performs.dfy`,
`parcels.dfy`). The decoders work on bits and the machine on numbers. `words.dfy` is the arithmetic of
32-bit words in both readings; with it, the effect that a word has on bits is shown to be what the
machine does, in every state and whatever the devices answer, and so is that of every parcel.

**Numeric kernels** (`lu_matrix.dfy`, `lu_theory.dfy`, `lu.dfy`, `fft.dfy`, `random.dfy`). LU
factorization with partial pivoting over exact reals, in-place bit reversal, and the two random
generators that fill and drive a 17-slot table.

**Scanner and CRC** (`state_grammar.dfy`, `core_state.dfy`, `crc.dfy`, `crc_division.dfy`). A state
machine against the grammar of the numbers it recognizes, over texts of any length, with the block
it reads and the corruption around it; and a bit-serial CRC against polynomial division.

`binary.dfy`, `powers.dfy`, `machine_ints.dfy` and `options.dfy` hold what these share.

## What the proofs show about the code

- A comment promises that the list is back in its original state after the benchmark. It is after
  every run exactly when no index was given twice; otherwise a run that searches for one value leaves
  another order (`InitBench.InitAndBench`). The seed 2 gives one twice in a list of the benchmark's
  size (`ListIndices.SeedOfCollision`), and every seed does from 323 blocks on.
- A comment promises that undoing the corruption of the scanner's block restores it when both seeds
  are equal. It does exactly when no byte it reaches was turned into a comma
  (`CoreState.CoreBenchState`); the first byte of the pattern `5012` is, by the key 0x19
  (`CoreState.NotRestored`).
- Of the scanner's own patterns for numbers with an exponent, `-87e+832` is one that it takes for
  invalid, because it has no point (`CoreState.ScientificPatterns`).
- The seed 0 makes a table of negative numbers (`Random.TableEntries`), and a number can be exactly
  2^31 - 1, so that its scaled value is 1, exactly when the initial table holds that number
  (`Random.StreamBelow`, `Random.SeedOfTop`).
- The expander lets pass right shifts by 32 and more, dropping the upper bit of the amount, and the
  reserved `c.lui` to x0 without an immediate (`Compressed.ExpansionMeans`). The disassembler
  rejects `c.andi` with the operand 0 and reads reserved parcels (`Disassembly.ReadingMeans`).
- MRET leaves MPIE as it is, where section 3.1.6.1 of the privileged architecture has it set
  (`RvTraps.MretLeavesMpie`).
- The trap of a misaligned jump names the jump only if no interrupt is taken before it; otherwise the
  handler is told to return to the misaligned target (`RvRuns.TrapNamesJump`).
- The range test of memory adds in 32 bits. It is right unless exactly one of the two ends reaches
  2^31 (`RvTraps.AdmittedExactly`): with memory from 0 on it lets through the word at 0x7ffffffc, and of
  the aligned accesses only those that end at 2^31 (`RvTraps.StrayWord`, `RvTraps.LoadsThatStray`).
- A byte or halfword loaded from a device keeps the upper bits that the device gives, unless its sign
  bit is set (`RvAccess.ExtendedDevice`).
- A store to the exit register, 0xa000002c, is reported by the number 2, which is also that of the
  illegal instruction trap, so that the step traps instead of ending the program (`RvRuns.ExitTraps`).

## Model

| member | source | states |
|---|---|---|
| CoreList.CalcFunc | sw/coremark/core_list_join.c:69-114 | a cached datum is returned and nothing changes; otherwise its low seven bits become the result of the kernel that its low three bits select, with the operand from bits 3 to 6 given, bit 7 is set, the high byte kept, the result enters the CRC, and the first CRC of each kernel is kept |
| CoreList.Compare | sw/coremark/core_list_join.c:120-142 | whichever comparator runs, both keys are fixed afterwards, a fixed key and every high byte and index are unchanged, and the result is at most 0 if and only if the low seven bits of the first datum, or its index, are at most those of the second |
| MergeOrder.MergedContents | sw/coremark/core_list_join.c:533-577 | merging two runs keeps exactly their nodes |
| MergeOrder.MergedSorted | sw/coremark/core_list_join.c:533-577 | merging two stably sorted runs, the first of which came earlier, gives a stably sorted run |
| MergeOrder.Compared | sw/coremark/core_list_join.c:536-565 | the first comparison of a merge fixes keys of nodes that stood alone and leaves every other key, so the merge under way is still that of its runs |
| MergeOrder.PassStep | sw/coremark/core_list_join.c:515-581 | merging the next two runs of a pass keeps the nodes, the runs of double length behind and the runs of single length ahead, and counts the merge |
| MergeSort.MergeLoop | sw/coremark/core_list_join.c:533-577 | the inner loop ends with both runs used up, the merged list linked from list to tail, and the rest of the chain untouched |
| MergeSort.StepPlaces | sw/coremark/core_list_join.c:518-528 | q ends insize nodes further on or at the end, and psize counts the nodes passed |
| MergeSort.Pass | sw/coremark/core_list_join.c:505-583 | one pass turns runs of length insize into runs of twice that length over the same nodes and counts the merges |
| MergeSort.Mergesort | sw/coremark/core_list_join.c:499-595 | for every non-empty list and every total preorder: terminates with a NULL-terminated list of exactly the same nodes, sorted and stable under the keys as they are at the end; keys change at most from unfixed to fixed, and in a list of two or more all are fixed. By data, the low seven bits ascend and nodes with equal ones keep their order; by index, the indices ascend and equal ones keep their order |
| ListSearch.Find | sw/coremark/core_list_join.c:434-449 | returns the first node with the wanted index, or with the wanted low byte when the index is negative, or NULL; changes nothing |
| ListSearch.Reverse | sw/coremark/core_list_join.c:464-476 | the same nodes in opposite order, data untouched |
| ListSearch.ReversedAt | sw/coremark/core_list_join.c:464-476 | place i of the reversed list holds what was in place n - 1 - i |
| ListSearch.PromotedContents | sw/coremark/core_list_join.c:188-195 | moving the node after the found one to second place loses and repeats no node and keeps the head |
| ListSearch.Promote | sw/coremark/core_list_join.c:188-195 | caching the next item relinks the list into exactly that order, also when the found node is the head or the last |
| ListSearch.PromotedTurns | sw/coremark/core_list_join.c:178-203 | reversing a list and moving the node after the found one to second place takes every node to its stated place |
| ListSearch.RoundTurns | sw/coremark/core_list_join.c:170-203 | one round of the search: whether a node answers, which bit is added, which counter grows, and the next wanted index, wrapped at 16 bits |
| ListSearch.FindPhase | sw/coremark/core_list_join.c:170-203 | for any number of rounds: found counts those whose wanted index, or byte, some node of the first list has, found and missed are all rounds, and the sum is made of one bit a round: bit 9 of the first answer if its bit 0 is set, or bit 8 of the node before the last if none answers; every node goes to the place that reversal and promotion give it; the value is the sum with four times found less missed |
| BenchList.Remove | sw/coremark/core_list_join.c:376-389 | the next node is unlinked after exchanging data pointers with item |
| BenchList.UndoRemove | sw/coremark/core_list_join.c:407-419 | the removed node is linked behind the modified one and the data pointers are exchanged back |
| BenchList.RemoveCrcUndo | sw/coremark/core_list_join.c:207-221 | removing the second node, taking the CRC and undoing the removal leaves links, data pointers and data as they were and returns that CRC |
| BenchList.CrcTimesFolds | sw/coremark/core_list_join.c:208-234 | the CRC of a datum taken again and again is that of its bits repeated |
| BenchList.OrderIsUnique | sw/coremark/core_list_join.c:222-223 | nodes with pairwise distinct indices have one order by index only |
| BenchList.Regenerated | sw/coremark/core_list_join.c:69-142 | a datum with equal bytes that the first comparator has cached is brought back by the second one |
| BenchList.Restored | sw/coremark/core_list_join.c:204-223 | sorting by data and later by index with NULL gives back the original data, and the original order if that was by increasing index |
| BenchList.CoreBenchList | sw/coremark/core_list_join.c:158-235 | for any list of at least three nodes with each low byte equal to the high byte, and any kernels: data pointers and data end as they were; the list between is sorted stably by the low seven bits when finder_idx is positive, and the order at the end by index, equal indices staying in order; what res->list names is the original list exactly when that order is the original one, as it is for increasing indices; the result is the CRC, from the value of the search on, of the first datum repeated for the nodes from the found one on and of the last first datum repeated for all nodes but one |
| ListInit.InsertNew | sw/coremark/core_list_join.c:335-360 | the new node with the given data stands behind the insertion point, or NULL is returned and nothing changes when the block is full |
| ListInit.Number | sw/coremark/core_list_join.c:289-305 | every node but the first and the last gets the index of its place, and no other field changes |
| ListInit.CoreListInit | sw/coremark/core_list_join.c:250-319 | the list has size - 1 fresh nodes, stably sorted by index; bits 0 to 2 of the datum of item i are those of i, bits 3 to 6 are bits 0 to 3 of i exclusive-ored with the seed, bit 7 is clear and both bytes are equal; indices are places in the first fifth and the stated mixture of bits after it |
| ListInit.InitialOrder | sw/coremark/core_list_join.c:250-319 | the initial list is ordered by index with each low byte equal to the high byte, and its indices increase if and only if none was given twice |
| ListIndices.DatumBits | sw/coremark/core_list_join.c:277-288 | every bit of the datum of item i, and with it that the datum is i modulo 8 |
| ListIndices.IndexBits | sw/coremark/core_list_join.c:289-305 | every bit of a mixed index, from the place and the seed |
| ListIndices.SameMixed | sw/coremark/core_list_join.c:297-303 | an even place and the one 256 further on get the same mixed index when the place lies in an even block of 256 |
| ListIndices.IndicesDistinct | sw/coremark/core_list_join.c:289-305 | for every size: no index is given twice if and only if there are at most 322 blocks and no mixed index falls among those given in order, a condition on seed and size |
| ListIndices.BenchmarkSeeds | sw/coremark/core_list_join.c:289-305 | the seeds of the benchmark's own runs give no index twice in a list of its size |
| ListIndices.SeedOfCollision | sw/coremark/core_list_join.c:289-305 | the seed 2 gives one twice |
| InitBench.RepeatIsNotRestored | sw/coremark/core_list_join.c:158-319 | when an index was given twice, the order after a search for the index 0 alone, sorted stably by index, is not the initial one |
| InitBench.InitAndBench | sw/coremark/core_list_join.c:158-319 | initialization followed by the benchmark, for every seed, size of at least four and pair of kernels: with no index given twice every run leaves the list as initialized; otherwise the run with seed3 = 1 and finder_idx = 0 does not |
| MapTree.RepairedOrder | tools/map.c:66-139 | one turn of the repair loop keeps the keys in order |
| MapTree.RepairedBalanced | tools/map.c:66-139 | one turn keeps the black counts equal on every path |
| MapTree.FixUpKeeps | tools/map.c:66-139 | the repair loop ends in a red-black tree with the same keys in the same order |
| MapTree.WithKeyKeeps | tools/map.c:178-187 | inserting a new key into a red-black search tree gives one with exactly that key added |
| MapTree.HistoryIsRedBlack | tools/map.c:20-187 | from NULL, any sequence of insertions of distinct keys gives a red-black search tree of exactly these keys |
| MapTree.HistoryIsShallow | tools/map.c:20-187 | its height is at most 2 log2(n + 1) |
| MapTree.DeletedInOrder | tools/map.c:150-176 | deletion removes exactly the given key and keeps the order; without the key the tree is unchanged |
| MapTree.DeletionKeepsBalance | tools/map.c:150-176 | a deletion leaves a red-black tree balanced if and only if the key is absent, the node unlinked is red, or it is the root |
| MapTree.DeletionUnbalances | tools/map.c:150-187 | after the insertions of 2, 1, 3 and 4 the deletion of 1 unbalances the tree |
| Map.RotateLeft | tools/map.c:34-48 | left rotation on the heap: child and parent links of the whole tree are those of the rotated tree |
| Map.RotateRight | tools/map.c:50-64 | the same for right rotation |
| Map.FixViolation | tools/map.c:66-139 | the loop over the heap terminates with the repaired tree, links and colours included, at *root |
| Map.InsertBST | tools/map.c:20-32 | the new node becomes a leaf of the search tree with consistent parent links |
| Map.InsertNode | tools/map.c:178-187 | *root is a red-black search tree with consistent parent links before and after, and the new key is added |
| Map.FindNode | tools/map.c:194-202 | returns a node with the key if and only if the key is in the tree |
| Map.MinValueNode | tools/map.c:141-148 | returns a node with the least key |
| Map.DeleteNodeBST | tools/map.c:150-176 | child links and colours after deletion are those of the tree without the key, and the node freed is no longer in it |
| Map.DeleteNode | tools/map.c:189-192 | *root is a search tree, colours included, without exactly that key; after insertions it is balanced if and only if the key is absent, the node unlinked is red, or it is the root |
| Map.InsertAll | tools/map.c:178-187 | from NULL, insertions of distinct keys in any number keep the map's invariant |
| Map.DeleteAll | tools/map.c:189-192 | any deletions after insertions leave a search tree, through child links, of exactly the keys not deleted |
| LuMatrix.StepFactored | sw/scimark2/LU.c:67-97 | one turn of the outer loop leaves every entry of the original rows recoverable from the factors built so far and the rest |
| LuMatrix.StepBounded | sw/scimark2/LU.c:36-76 | with the largest pivot chosen, the new multipliers do not exceed one in absolute value |
| LuTheory.FactoredIsProduct | sw/scimark2/LU.c:25-101 | the finished array read as unit-lower L and upper U multiplies to the permuted rows |
| LuTheory.FactoredIsIndependent | sw/scimark2/LU.c:25-101 | when it finishes, the first min(M, N) columns are independent |
| LuTheory.StuckIsDependent | sw/scimark2/LU.c:55-56 | when no pivot is found, they are dependent |
| LuTheory.PermutedRows | sw/scimark2/LU.c:59-65 | the recorded exchanges permute the rows |
| LU.FindPivot | sw/scimark2/LU.c:36-48 | the first row with the largest absolute value in the column from the diagonal down |
| LU.FactorColumn | sw/scimark2/LU.c:59-97 | swap, scaling and rank-one update in place equal one turn on values |
| LU.LuFactor | sw/scimark2/LU.c:25-101 | for any M x N matrix: returns 0 if and only if the first min(M, N) columns are independent, and then L times U is the original rows permuted by the recorded pivots with every multiplier at most one in absolute value |
| FFT.IntLog2 | sw/scimark2/FFT.c:22-33 | the logarithm, or none exactly when n is no power of two |
| FFT.RevTwice | sw/scimark2/FFT.c:105-140 | bit reversal undoes itself |
| FFT.RevNext | sw/scimark2/FFT.c:130-138 | how adding one to an index changes its reversal |
| FFT.NextReversed | sw/scimark2/FFT.c:130-138 | the carry loop terminates with the reversal of the next index |
| FFT.BitReverse | sw/scimark2/FFT.c:105-140 | for every power of two: pair i ends with the old pair rev(i), and elements beyond are untouched |
| FFT.BitReversedTwice | sw/scimark2/FFT.c:105-140 | doing it twice is the identity |
| Random.GrownClosed | sw/scimark2/Random.c:107-133 | entry n of the table is s 9069^n mod 2^31 for the odd-normalized seed s |
| Random.NextEntry | sw/scimark2/Random.c:122-129 | one turn on halves of 16 bits, with truncating division, gives the halves of the next entry; every product and sum is a 32-bit integer |
| Random.TableEntries | sw/scimark2/Random.c:107-133 | all entries are odd, and they are numbers the generator can start from if and only if the seed is not 0 |
| Random.State.Initialize | sw/scimark2/Random.c:107-133 | the 17 slots hold the table of the seed, and no intermediate result leaves 32 bits |
| Random.StreamRecurrence | sw/scimark2/Random.c:71-94 | the numbers satisfy x(t) = x(t-5) - x(t-17) modulo 2^31 - 1 |
| Random.StreamInRange | sw/scimark2/Random.c:77-79 | every number stays within [0, 2^31 - 1] for every run length |
| Random.StreamBelow | sw/scimark2/Random.c:77-79 | all numbers stay below 2^31 - 1 if and only if the table does |
| Random.SeedOfTop | sw/scimark2/Random.c:107-133 | a seed whose table holds 2^31 - 1 |
| Random.State.NextInt | sw/scimark2/Random.c:71-91 | the ring of 17 slots yields the next number of the unbounded sequence, whatever the number of draws before, without 32-bit overflow |
| Random.State.NextDouble | sw/scimark2/Random.c:71-98 | over exact reals the result is that number scaled, within [0, 1], or within the range when that has one |
| Random.ScaleMeans | sw/scimark2/Random.c:71-98 | 2^31 - 1 times the scaled number, less the left end, is the number times the width |
| Random.ScaleInUnit | sw/scimark2/Random.c:71-98 | without a range the result lies in [0, 1] and is 0 or 1 for the least and the greatest number only |
| Random.ScaleInRange | sw/scimark2/Random.c:71-98 | with a range it lies between its ends and reaches both |
| Random.ScaleGrows | sw/scimark2/Random.c:71-98 | a greater number gives a greater result |
| Random.State.Vector | sw/scimark2/Random.c:135-144 | N draws are the next N numbers in order |
| Crc.Crcu8 | sw/coremark/core_util.c:164-188 | the loop takes the eight bits of the byte in turn, lowest first |
| Crc.ShiftedBit | sw/coremark/core_util.c:169-186 | one turn, bit by bit: all move down, and the bits of the polynomial are inverted when data and state differ |
| Crc.Crcu16 | sw/coremark/core_util.c:189-195 | equals taking the sixteen bits of the word, lowest first |
| Crc.Crcu32 | sw/coremark/core_util.c:196-202 | the same for thirty-two bits, through the two halves |
| CrcDivision.DivisionIsUnique | sw/coremark/core_util.c:164-188 | quotient and remainder over GF(2) are unique |
| CrcDivision.CrcIsRemainder | sw/coremark/core_util.c:164-188 | for every message and initial state there is a quotient with which the CRC is the remainder modulo x^16 + x^15 + x^2 + 1 |
| CrcDivision.CrcIsLinear | sw/coremark/core_util.c:164-188 | the CRC is linear over GF(2) in message and state together |
| CrcDivision.BurstsAreDetected | sw/coremark/core_util.c:164-188 | messages that differ within 16 consecutive bits only have different CRCs |
| CrcDivision.CrcBytes | sw/coremark/core_util.c:164-188 | over any byte sequence from 0 the bytewise CRC is the remainder of the whole bit stream |
| StateGrammar.GrammarExact | sw/coremark/core_state.c:216-330 | the machine is in a state exactly after the texts the grammar gives for it, for texts of any length |
| StateGrammar.TransitionClassifies | sw/coremark/core_state.c:216-330 | a call returns a state if and only if the text up to the next comma or NUL is of its form: sign? digit+, sign? digit* . digit*, or the latter followed by [eE] sign digit+ |
| StateGrammar.StopsAt | sw/coremark/core_state.c:221-329 | a call takes at least one byte, and stops after the comma, at the NUL, or right after the byte that makes the text invalid |
| CoreState.Switch | sw/coremark/core_state.c:230-325 | one turn of the switch: next state and transition counts |
| CoreState.TallyMeans | sw/coremark/core_state.c:230-325 | which counter each byte adds to in each state, by the kind of the byte |
| CoreState.Transition | sw/coremark/core_state.c:216-330 | the scanner over memory stays within a terminated block and returns state, position and counts of the call on its text |
| CoreState.Scan | sw/coremark/core_state.c:65-72 | the loop over the input terminates and counts final states and transitions of all its tokens |
| CoreState.ScanIsBalanced | sw/coremark/core_state.c:65-72 | calls that took a byte and calls that met a comma make up all calls, and exponent states are entered only through the states before them |
| CoreState.Corrupt | sw/coremark/core_state.c:79-85 | exactly the bytes at multiples of step, commas excepted, are exclusive-ored |
| CoreState.CorruptedTwice | sw/coremark/core_state.c:79-104 | undoing with the same key restores the block if and only if none of the bytes reached, commas excepted, is the key exclusive-ored with a comma |
| CoreState.NotRestored | sw/coremark/core_state.c:79-115 | the block that begins with 5012 is not restored under the key 0x19, whatever the step |
| CoreState.StaysTerminated | sw/coremark/core_state.c:79-88 | two adjacent NULs keep a block terminated for every step of two or more |
| CoreState.CoreBenchState | sw/coremark/core_state.c:45-111 | both scans, corruption and undo: the final block and the CRC over the bits of all counters; with equal keys the block is left as it was if and only if no byte reached became a comma |
| CoreState.CountsAreFolded | sw/coremark/core_state.c:106-111 | the CRC over the counters is that of a stream of 512 bits, 32 of each counter, lowest first, calls before transitions |
| CoreState.CoreInitState | sw/coremark/core_state.c:139-195 | for every size of at least one: writes only inside the block, patterns that fit each with a comma, then NULs to the end |
| CoreState.InitIsTerminated | sw/coremark/core_state.c:139-195 | a block of two bytes or more stays terminated under corruption with any key and any step of two or more |
| CoreState.IntPatterns | sw/coremark/core_state.c:113-115 | the integer patterns are accepted as integers |
| CoreState.FloatPatterns | sw/coremark/core_state.c:116-119 | the patterns with a point are accepted as such |
| CoreState.ScientificPatterns | sw/coremark/core_state.c:120-123 | those with an exponent are accepted if and only if the pattern is not the third |
| CoreState.FaultyPatterns | sw/coremark/core_state.c:124-127 | the faulty patterns leave the machine in the invalid state |
| CoreState.PatternExamples | sw/coremark/core_state.c:113-127 | the patterns of four seeds, byte by byte |
| CoreState.TakesToken | sw/coremark/core_state.c:216-330 | a call on an accepted text followed by a comma takes exactly these bytes and returns its state |
| MultiplyDivide.MulhExact | tools/rvsim.c:1355-1370 | MULH and MUL together are the exact signed product |
| MultiplyDivide.MulhsuExact | tools/rvsim.c:1371-1383 | MULHSU and MUL together are the exact mixed product |
| MultiplyDivide.MulhuExact | tools/rvsim.c:1384-1396 | MULHU and MUL together are the exact unsigned product |
| MultiplyDivide.DivRem | tools/rvsim.c:1397-1420 | DIV and REM are truncating quotient and remainder with their sign and size bounds, except for INT_MIN / -1 and a zero divisor, whose results are given |
| MultiplyDivide.DivRemModulo | tools/rvsim.c:1397-1420 | divisor times quotient plus remainder is the dividend modulo 2^32 for all operands |
| MultiplyDivide.DivuRemu | tools/rvsim.c:1405-1428 | the same for unsigned operands |
| MultiplyDivide.DivisionIsUnique | tools/rvsim.c:1397-1428 | these bounds determine quotient and remainder |
| CarryLess.Clmul | tools/rvsim.c:1519-1530 | the loop computes coefficients 0 to 31 of the GF(2) product |
| CarryLess.Clmulh | tools/rvsim.c:1531-1542 | the loop, which starts at 1, computes coefficients 32 to 63 |
| CarryLess.Clmulr | tools/rvsim.c:1543-1554 | the loop computes coefficients 31 to 62 |
| CarryLess.CoefficientCommutes | tools/rvsim.c:1519-1554 | every coefficient is symmetric in the operands |
| CarryLess.WindowsCommute | tools/rvsim.c:1519-1554 | all three commute |
| CarryLess.TopCoefficient | tools/rvsim.c:1519-1554 | the product has 63 bits |
| CarryLess.ClmulrJoins | tools/rvsim.c:1519-1554 | clmulr is (clmulh << 1) with the top bit of clmul |
| BitCounts.Cpop | tools/rvsim.c:1221-1231 | the loop ends after as many turns as there are ones, with that number |
| BitCounts.Clz | tools/rvsim.c:1205-1220 | 32 for zero, else the distance of the highest one from the top |
| BitCounts.CtzLowest | tools/rvsim.c:1232-1242 | for every word but zero the de Bruijn lookup gives the place of the lowest one |
| BitCounts.CtzByOthers | tools/rvsim.c:1203-1243 | ctz(x) = 31 - clz(x & -x) = cpop((x & -x) - 1) |
| Compressed.Expansion0 | tools/decompress.c:58-105 | quadrant 0 expands to what the standard gives, or is illegal where it is reserved |
| Compressed.Expansion1 | tools/decompress.c:106-295 | the same for quadrant 1 |
| Compressed.Expansion2 | tools/decompress.c:297-383 | the same for quadrant 2 |
| Compressed.ExpansionMeans | tools/decompress.c:27-386 | for every parcel the word it expands to, taken apart into the fields the simulator uses, has the effect the standard gives to the parcel, and reserved parcels are illegal, if and only if the parcel is in neither of two families |
| Disassembly.ReadingMeans | tools/riscv-disas.c:909-1001 | where the standard gives a meaning the disassembler reads an instruction of the same effect if and only if the parcel is not among those it rejects for a zero immediate; it reads exactly the listed reserved parcels |
| Disassembly.MoveEffect | tools/riscv-disas.c:557-557 | c.mv read as an addition of zero has the effect of add from x0 |
| Disassembly.DecodersAgree | tools/decompress.c:27-386 | where both decoders accept a parcel they agree in effect on every machine if and only if it is not a right shift by 32 or more |
| Words.SumNumber | tools/rvsim.c:1439-1442 | addition of words is addition of the numbers they hold, modulo 2^n for the low n bits |
| Words.ValueFixes | tools/rvsim.c:1439-1472 | no two words hold the same number |
| RvEffects.ArithmeticShiftIs | tools/rvsim.c:1487-1490 | the arithmetic shift of a word, through its complement, is the quotient rounded down |
| RvWords.ImmJValue | tools/rvsim.c:154-169 | the offset that the bit fields of a J-type word give is the number that its digits give |
| RvWords.ImmBValue | tools/rvsim.c:137-152 | the same for B-type words |
| RvPerforms.EveryState | tools/rvsim.c:935-1834 | every state of the machine has a picture in words |
| RvPerforms.InstructionPerforms | tools/rvsim.c:935-1834 | for every word that decodes to an instruction of the decoders, in every state and for every answer of the devices: the machine goes on where the effect says, writes the register and the value it says and no other, and makes the access it says, with all its outcomes; a jump to itself ends the program, and one to a misaligned address writes no register |
| Parcels.ExpansionIsDefined | tools/decompress.c:27-386 | every expansion is the word of an instruction, with the effect of the standard outside of the two families |
| Parcels.ParcelPerforms | tools/decompress.c:27-386 | for every parcel that expands: the machine does with the word what the decoded instruction does and, outside of the two families, what the standard gives to the parcel |
| Parcels.LengthMatters | tools/rvsim.c:914-933 | an instruction of any other length does the same, but for the address after it and the one it links |
| RvTheory.SameExecute | tools/rvsim.c:935-1834 | one instruction on a lazy and on a hard-wired machine that agree, x0 being clear, leaves them agreeing |
| RvTheory.LazyZeroRefines | tools/rvsim.c:842-843 | on every run from states that agree, clearing x0 only at the start of a step agrees with a hard-wired x0 in x1 to x31, pc, control registers, memory and status |
| RvTraps.EnteredBits | tools/rvsim.c:343-369 | on entry MPIE takes the value of MIE, MIE is cleared, and no other bit of mstatus changes |
| RvTraps.AtMostOneInterrupt | tools/rvsim.c:845-857 | at most one interrupt is entered in a step, by the order timer, software, external, and only with MIE set; none is entered exactly when MIE is clear or nothing is latched |
| RvTraps.NoneAfterSystem | tools/rvsim.c:884-910 | no interrupt is entered at the step after a system instruction |
| RvTraps.EnteredAndReturned | tools/rvsim.c:355-369 | mstatus after entry and return has MIE set again and differs from the one before in MPIE at most |
| RvTraps.MretLeavesMpie | tools/rvsim.c:1735-1750 | MPIE is set after MRET if and only if it was before |
| RvTraps.MisalignedJump | tools/rvsim.c:950-1020 | a jump to a misaligned target writes no register and changes nothing but the pc |
| RvTraps.AdmittedExactly | tools/rvsim.c:396-424 | for every base, size, address and length of 32 bits the range test is right if and only if the address is below the base, or both ends or none reach 2^31, or the wrapped end of the access lies above memory |
| RvTraps.StrayWord | tools/rvsim.c:411-424 | the word at 0x7ffffffc passes the test with memory from 0 on |
| RvTraps.LoadsThatStray | tools/rvsim.c:426-525 | with memory that ends below 2^31, a load reads outside of it if and only if it is a legal one whose last byte is that at 2^31 - 1 |
| RvTraps.StoresThatStray | tools/rvsim.c:527-558 | the same for stores |
| RvRuns.MisalignedJumpTraps | tools/rvsim.c:845-1020 | a step that jumps to a misaligned target, and the start of the next one without interrupt: mepc is the address of the jump, mtval the target, x1 to x31 and memory as before the jump |
| RvRuns.TrapNamesJump | tools/rvsim.c:845-1020 | the trap of a jump at an aligned address names it if and only if no interrupt, whose handler can be fetched, comes between |
| RvRuns.ExitTraps | tools/rvsim.c:567-573 | the step of a store to the exit register traps with cause 2 and changes neither memory nor registers |
| RvRuns.QuietRunKeepsReturn | tools/rvsim.c:820-1837 | a run of any length after an entry, without system instructions and traps, is not interrupted and keeps mepc, mstatus and mtvec |
| RvRuns.InterruptReturns | tools/rvsim.c:343-1750 | a run that enters an interrupt and comes to an MRET with mepc, mstatus and mtvec kept is, after the step of the MRET, back at the interrupted pc with MIE set, with the registers and memory of the handler, and no interrupt is taken before the instruction there |
| RvRuns.QuietHandles | tools/rvsim.c:343-1750 | every handler without system instructions and traps that comes to an MRET keeps them |
| RvViews.SeenRun | tools/rvsim.c:820-1837 | runs of any length from states that agree in pc, registers, memory and mtvec end alike, whatever control registers, counters and latches are, without system instructions, devices and interrupts |
| RvViews.InterruptIsTransparent | tools/rvsim.c:343-1837 | after an interrupt whose handler has put registers and memory back, every further such run ends as it would have without the interrupt |
| RvTraps.StoreThenLoad | tools/rvsim.c:396-424 | memory gives back the stored bytes, lowest first, and a store touches no other byte |
| RvTraps.StoreWordLoadWord | tools/rvsim.c:426-614 | a word loaded from where it was stored is the same word |
| RvMeaning.DecodeI | tools/rvsim.c:122-124 | fields and immediate of an I-type word are those it was encoded from |
| RvMeaning.DecodeS | tools/rvsim.c:132-135 | the same for S-type words |
| RvMeaning.DecodeB | tools/rvsim.c:137-152 | the same for B-type words |
| RvMeaning.DecodeJ | tools/rvsim.c:154-169 | the same for J-type words |
| RvMeaning.DecodeU | tools/rvsim.c:171-173 | the same for U-type words |
| RvMeaning.DecodeR | tools/opcode.h:145-153 | the same for R-type words |
| RvMeaning.LogicalBits | tools/rvsim.c:1457-1472 | XOR, OR and AND bit by bit |
| RvMeaning.ShlBits | tools/rvsim.c:1443-1446 | bit k of a left shift |
| RvMeaning.ShrBits | tools/rvsim.c:1461-1465 | bit k of a logical right shift |
| RvMeaning.SarBits | tools/rvsim.c:1487-1490 | bit k of an arithmetic right shift, the sign filling the freed places |
| RvMeaning.CsrReadBack | tools/rvsim.c:220-336 | a control register reads as last written if it is writable, and a write changes no other |
| RvMeaning.UpdatedBits | tools/rvsim.c:212-218 | CSRRS sets and CSRRC clears exactly the bits of the operand |
| RvSteps.BranchSteps | tools/rvsim.c:1021-1082 | a step on any encoded branch goes to pc + imm if and only if the registers are equal, unequal, less, not less, or so as unsigned numbers, and else to pc + 4; no register, byte or control register but the counters changes, and the penalty is that of the prediction |
| RvSteps.JumpSteps | tools/rvsim.c:950-984 | JAL to an aligned address goes to pc + imm and leaves pc + 4 in rd; to itself it ends the program |
| RvSteps.JumpRegisterSteps | tools/rvsim.c:985-1020 | the same for JALR and rs1 + imm without its lowest bit |
| RvSteps.UpperSteps | tools/rvsim.c:936-949 | LUI leaves imm * 4096 in rd and AUIPC pc + imm * 4096, modulo 2^32 |
| RvSteps.RegisterSteps | tools/rvsim.c:1436-1513 | ADD and SUB modulo 2^32, SLT and SLTU by signed and unsigned comparison, XOR, OR, AND and the three shifts bit by bit; everything else but the counters stays |
| RvSteps.ImmediateSteps | tools/rvsim.c:1156-1187 | the same with an immediate |
| RvSteps.ShiftSteps | tools/rvsim.c:1188-1339 | the same for the three shifts by an immediate |
| RvSteps.MultiplySteps | tools/rvsim.c:1355-1396 | MUL, MULH, MULHSU and MULHU are the lower and upper words of the exact product of their signed or unsigned operands |
| RvSteps.DivideSteps | tools/rvsim.c:1397-1428 | DIV, REM, DIVU and REMU: the dividend is divisor times quotient plus remainder with the bounds that fix both, and the results for a zero divisor and for INT_MIN / -1 |
| RvAccess.LoadSteps | tools/rvsim.c:426-525 | loads: LB and LH leave the number of 8 or 16 bits, signed, that memory holds lowest byte first, LBU and LHU the unsigned one, LW the word; a misaligned address traps with cause 4, a device answers or traps with cause 5 |
| RvAccess.StoreSteps | tools/rvsim.c:527-558 | stores: exactly the 1, 2 or 4 bytes at the address become the low bytes of rs2, lowest first; a misaligned address traps with cause 6 |
| RvAccess.DeviceStoreSteps | tools/rvsim.c:559-614 | a store that a device takes leaves what the device reports, ends the program, or traps with cause 7 |
| RvAccess.ExtendedDevice | tools/rvsim.c:510-523 | what LB, LH, LBU and LHU make of a whole word from a device: the upper bits are dropped only when the sign bit of the part is set |
| RvAccess.FetchedWord | tools/rvsim.c:876-876 | the word that is fetched is what a load of four bytes reads there |
| RvSystem.FenceSteps | tools/rvsim.c:1682-1686 | FENCE changes nothing but pc and counters |
| RvSystem.CsrSteps | tools/rvsim.c:212-1834 | the six CSR instructions: the value read, numbered register by register, goes to rd; the new one replaces it, sets or clears the bits of the operand in that register alone, unless the operand is x0 or 0; an unknown number traps with cause 2 |
| RvSystem.ReturnSteps | tools/rvsim.c:1735-1750 | MRET goes to mepc; MIE becomes MPIE and no other bit of mstatus changes |
| RvSystem.BreakSteps | tools/rvsim.c:1687-1756 | EBREAK traps with cause 3 and its own address |
| RvSystem.CallSteps | tools/rvsim.c:1694-1730 | ECALL passes a7 and a0 to a5, takes the answer into a0 unless it is -1, and traps with cause 11 or ends the program |
| RvSystem.IllegalSteps | tools/rvsim.c:935-1834 | every word that opcode, func3 or func7 rule out traps with cause 2 and the word as value, with registers and memory as before |
| RvSystem.RequestSteps | tools/rvsim.c:882-904 | the requests a step leaves: the timer once mtime has reached mtimecmp, the others a step after msip, each only when enabled and not by a system instruction |
| RvSystem.InterruptSteps | tools/rvsim.c:343-369 | entry to an interrupt: cause, mepc, the bits of mstatus and mip, and the direct or vectored handler, by the order timer, software, external |
| RvSystem.FetchSteps | tools/rvsim.c:859-874 | a step begins at the pc if that is aligned and in memory, and else in the handler with cause 0 or 1 and the pc as value |
| Rvsim.Rv.Begin | tools/rvsim.c:840-874 | a step as far as the fetch: x0 cleared, interrupts, range and alignment traps |
| Rvsim.Rv.ReadMem | tools/rvsim.c:411-424 | refuses exactly what the 32-bit range test refuses; inside memory gives the bytes, lowest first, and else reports that the access leaves it |
| Rvsim.Rv.WriteMem | tools/rvsim.c:396-409 | the same for writes, which change exactly the bytes written and, outside memory, none of it |
| Rvsim.Rv.MemrwLoad | tools/rvsim.c:426-525 | value with its extension, the number of the trap, or an access that leaves memory |
| Rvsim.Rv.MemrwStore | tools/rvsim.c:527-614 | memory or device state, the number of the trap, the end of the program, or an access that leaves memory |
| Rvsim.Rv.DoJump | tools/rvsim.c:950-1020 | JAL and JALR, the misaligned and the self-targeting ones included |
| Rvsim.Rv.StepOnce | tools/rvsim.c:820-1837 | a whole step in place ends in x1 to x31, pc, control registers, memory and status as the step of every hard-wired machine that agreed before |
| Rvsim.Rv.Simulate | tools/rvsim.c:804-811 | the execution loop, for any number of steps, ends as the run of every hard-wired machine that agreed before, whatever the devices do at each step |

## Left out

- Host side: ELF loading, command line, tracing, system calls and the device registers but the exit register; the simulator takes the results of calls and devices from arbitrary functions.
- What the simulator does once an access has left the buffer that holds memory; the machine stops there with a status of its own.
- gdbstub, debug terminal and the text that the disassembler prints.
- XV6 control registers, RV32E, RV32B outside carry-less multiplication and bit counts, RV64, RV128, atomic and floating-point instructions.
- The simulator with compressed instructions enabled: parcels are compared with the standard, and their words run on the machine, but the fetch of the machine takes four bytes; the extra cycle when the instruction length changes is not modelled.
- Rvsim.Rv.StepOnce: requires a word to fetch after the traps of the fetch; otherwise the source goes on with an uninitialized instruction.
- Shifts by a register are taken modulo 32, which is what hosts with masking shifts do with the unmasked amounts of the source.
- Counters of the simulator are unbounded integers; the source has 64 bits.
- FFT butterflies, SOR, Monte Carlo, sparse products and the stopwatch: they rest on rounding or trigonometry.
- LU.LuFactor: rounding of floating-point numbers; the arithmetic is that of the reals.
- Random.State.NextDouble: rounding of the scaled value.
- Random.State.Initialize: the seed INT_MIN, whose negation overflows, and the numbers drawn from the seed 0, which can overflow.
- Map.InsertNode: a key that is already present, for which the repair loop of the source runs on a detached node.
- Map.DeleteNode: parent links after a deletion, which the source copies along with a node; memory is not freed but named.
- Compressed.ExpansionMeans: the exit of the simulator at a jump to itself, such as c.j with the offset 0; the effect is that of the standard, and RvPerforms.InstructionPerforms says where the machine differs.
- MergeSort.Mergesort: the overflow of insize for lists of 2^31 nodes or more, and the empty list, for which the source dereferences NULL.
- ListInit.CoreListInit: sizes below three, for which the source dereferences NULL; nodes are allocated one by one instead of carved out of one block.
- BenchList.CoreBenchList: the matrix and state kernels, which are arbitrary functions here.
- CoreState.CoreBenchState: blocks that hold no NUL after corruption, for which the second scan leaves the block; counts are unbounded and reduced to 32 bits for the CRC.
- Dhrystone, pi, qsort, hello, the matrix benchmark and the test-framework plugins: fixed runs or routine loops.
