# Verified model of stark-v

stark-v is a RISC-V zkVM: a runner records an execution as tables of field
elements over M31 (P = 2^31 - 1), constraint tables say what a row must
satisfy, multiset relations (LogUp) tie the tables together, and a recursion
layer proves the verifier itself. This project models the parts whose
correctness is least obvious and proves what they promise.

Every LogUp relation is modelled as a bag: a tuple's net multiplicity is an
integer, and a relation is balanced when every tuple nets to zero (mod P in
`Wiring`, `Activations` and `MemoryTree`). The two-to-one hash and the sponge's
permutation are parameters of the results about trees and channels. None of
these results assumes a hash without collisions: a binding result names the
colliding pairs that are the only way around it.

- **Arithmetic rows** (`DivRow`, `DivComplete`, `AluRows`, `CompareRows`,
  `BranchRows`, `BranchSteps`, over `M31`, `Mersenne`, `Fermat`, `RowFacts`):
  congruences mod P and range checks become exact integer statements about
  32-bit words.
- **Felt compiler** (`FeltAst`, `FeltSemantics`, `Lowering`, `LowererClass`,
  `Lower*`, `CompilerTheorems`, `UnshadowedBinders`, `LowerProgress`,
  `Activations`, `ActivationTables`): a meaning
  for source functions, the lowering to single-assignment cells, columns and
  constraints as a specification and as the mutable compiler that computes it,
  and the proofs that exactly the meaningful functions compile and that meaning
  is preserved both ways, inside one row and across a whole system of tables
  calling each other.
- **Poseidon2** (`Poseidon2`, `Poseidon2Program`, `Poseidon2Rows`): the
  permutation in place, the felt program it is compiled from, and the end-to-end
  result that every accepted row of the compiled table carries the permutation.
- **Recursion circuit** (`Qm31`, `CircuitRows`, `Wiring`, `CircuitLowering`,
  `Recorder`, `RecorderTheorems`, `LogUp`): recording an expression DAG,
  lowering it to rows, and why balanced wiring pins every value.
- **Runner** (`Tracing`, `Machine`, `MachineClasses`, `SparseTree`,
  `MemoryTree`, `MemoryHashes`, `Commitment`, `Segments`, `Layouts`, `SegmentLoop`): offline
  memory checking, sparse Merkle commitments, what the rows of a commitment prove
  and root chaining across segments.
- **Openings** (`Openings`, `OpeningWalk`, `CanonicalWitness`, `PathRows`,
  `HashBag`, `TreeOpening`, `PathSoundness`): multi-proof walks, the path rows
  that replay them, and what the relation between rows and permutations proves.
- **Channel and aggregation** (`Sponge`, `Channel`, `ChannelReplay`,
  `ReplayTheorems`, `ReplaySoundness`, `SessionLinks`, `Aggregation`,
  `AggregationTheorems`, `AggregationReport`): the Fiat-Shamir channel refined by
  its chunked replay, rows forced by balanced bags, and a tree fold against
  pairwise checks.

Code that works by updating state is modelled by classes and loops, each proved
against a function; the theorems are about those functions.

Where the code and its documentation or an expected property disagree, the code
is followed; a lemma gives the failing input and another the exact condition:

- a wired row may carry a wrong value: `Wiring.UngatedRowsLie`, `Wiring.CanonicalIffNoStray`;
- an accepted leaf may not be in its tree: `PathSoundness.ForgedLeaf` and
  `PathSoundness.ExchangedParents`, `HashBag.SplitMeansRearranged` and `HashBag.HashedIffPaired`;
- a memory word may not be in its tree: `MemoryHashes.ForgedLeaf`, `MemoryTree.SoundIffTied`;
- a branch may have no accepted row: `BranchSteps.WrappedBranchRejected`, `BranchSteps.PushBranchLt`;
- a replayed session may not link: `ReplayTheorems.TaggedMixRejected`, `ReplayTheorems.SessionLinksIff`;
- a linked session may not be a replay: `SessionLinks.UncountedDraw`, `SessionLinks.RecordedIff`;
- segment roots may not chain: `Layouts.CutWordBreaksChain`, `Segments.LeavesChain`;
- a product may be refused: `LoweringExprs.BudgetOneRefusesProducts`, `LoweringExprs.LowerProductIff`;
- two cells may share a name: `CellNames.ClashExample`, `CellNames.SpellingsClash`;
- a reported pair may not be the mismatching one: `AggregationReport.DistantReport`,
  `AggregationReport.ReportsNeighboursIff`;
- unrolling may capture a variable: `SubstitutedBlocks.CaptureExample` and
  `LowerProgress.RebindingSumRefused`; `UnshadowedBinders.BlockIsBinding` says when it does not.

## Model

| member | source | states |
|---|---|---|
| DivRow.DivSound | crates/air/src/schema.rs:1179-1358 | A row that satisfies every div constraint mod P with its range checks, on byte operands and one opcode flag, writes exactly DIV, DIVU, REM or REMU of section 7.2 of the RISC-V Unprivileged ISA, zero divisor and -2^31 / -1 included |
| DivRow.IdentityIsExact | crates/air/src/schema.rs:1222-1247 | The eight range-checked limb carries and the scan turn the congruences mod P into the integer identity dividend = divisor * quotient + remainder |
| DivRow.ScanIsComparison | crates/air/src/schema.rs:1309-1322 | An accepted limb scan means that the remainder is of smaller magnitude than the divisor, in the reading its sign column selects |
| DivComplete.ScanAcceptsIff | crates/air/src/schema.rs:1309-1345 | Marker and difference columns that pass the scan exist if and only if the remainder is of smaller magnitude |
| DivComplete.DivComplete | crates/air/src/schema.rs:1222-1353 | Every opcode and every pair of 32-bit operands has an accepted row; all eight carries fit 11 bits |
| Mersenne.PIsPrime | crates/runner/src/ops/utils.rs:4 | 2^31 - 1 is prime, so a vanishing product of columns has a vanishing factor |
| AluRows.MulRowIff | crates/air/src/schema.rs:1035-1078 | On byte operands a mul row is accepted if and only if rd is the product mod 2^32: the carries neither admit another word nor reject the right one |
| AluRows.AddSubRowIff | crates/air/src/schema.rs:48-90 | On byte operands an add or sub row is accepted if and only if rd is the sum or difference mod 2^32 |
| CompareRows.ScanSound | crates/air/src/schema.rs:496-545 | Whatever the markers and the difference column, cmp_result of an accepted scan is the signed or unsigned comparison of the words |
| BranchSteps.LtRowSound | crates/air/src/schema.rs:480-554 | An accepted slt or sltu row writes 1 exactly when rs1 < rs2 in its signedness, else 0 |
| BranchSteps.BranchLtRowSound | crates/air/src/schema.rs:688-760 | cmp_result of an accepted blt, bltu, bge or bgeu row is the branch decision, and branch_target is pc + imm or pc + 4 accordingly |
| BranchSteps.BranchEqRowSound | crates/air/src/schema.rs:634-682 | cmp_result of an accepted beq or bne row is the branch decision: inverse markers cannot fake inequality |
| BranchSteps.TargetIsAddress | crates/runner/src/ops/branch.rs:95-105 | Reduced mod P, the machine's wrapping program counter is the field sum of its operands if and only if the 32-bit addition does not wrap |
| BranchRows.ComputeLtRegWitness | crates/runner/src/ops/utils.rs:115-171 | The first-difference loop from the top limb yields columns that pass the whole scan with the true comparison bit |
| BranchSteps.ComputeBranchEqWitness | crates/runner/src/ops/branch.rs:17-38 | The loop with break marks the first differing limb with the inverse of its difference, computed by exponentiation, and nothing if and only if the words are equal |
| BranchSteps.PushBranchLt | crates/runner/src/ops/branch.rs:90-213 | The row pushed for a less-than branch of any operands carries the next program counter, and is accepted if and only if computing that address did not wrap |
| BranchSteps.PushBranchEq | crates/runner/src/ops/branch.rs:44-84 | Every beq and bne of any operands gets an accepted row, and the target it emits is the next program counter if and only if computing it did not wrap |
| BranchSteps.WrappedBranchRejected | crates/runner/src/ops/branch.rs:102-126 | A taken branch from address 0 by -4 has no accepted row: the machine goes to 2^32 - 4 |
| Fermat.InverseByPower | crates/runner/src/ops/utils.rs:27-36 | Fermat's little theorem for P: x^(P - 2) inverts every non-zero x |
| Fermat.M31Inverse | crates/runner/src/ops/utils.rs:27-52 | The squaring loop returns the inverse of a non-zero element, and zero at zero |
| CompilerTheorems.LoweringComplete | crates/stwo-macros/src/air_fns.rs:1108-1208 | For any source function and arguments, the fill program of the lowered function satisfies every materialization equality, returns the source values, and satisfies all constraints if and only if the source assertions hold |
| CompilerTheorems.LoweringSound | crates/stwo-macros/src/air_fns.rs:1108-1208 | Any row that satisfies the constraints, with calls answered, returns what the source returns on its arguments, all assertions true, and agrees with the fill on every column |
| CompilerTheorems.FillUnique | crates/stwo-macros/src/air_fns.rs:510-526 | Materialized columns have no freedom: any solution with the same arguments agrees with the fill step by step |
| CompilerTheorems.LoweringDegree | crates/stwo-macros/src/air_fns.rs:1115-1117 | Every derived cell and every ungated constraint of a successful lowering has true polynomial degree at most max_degree - 1 |
| LowerProgress.LowersIffMeaningful | crates/stwo-macros/src/air_fns.rs:1108-1208 | With a degree bound of 3 or more, a function lowers if and only if it evaluates, whatever the argument values: names, sizes, indices and arities are the only things the compiler refuses |
| LowerProgress.RebindingSumRefused | crates/stwo-macros/src/air_fns.rs:617-732 | Why binders must differ: a sum inside a sum over the same variable has a value but is refused |
| LoweringExprs.FitProductCorrect | crates/stwo-macros/src/air_fns.rs:528-561 | However many factors are materialized, the lowered product stands for the product of the two values |
| LoweringExprs.ProductsFit | crates/stwo-macros/src/air_fns.rs:528-561 | The product loop ends and cannot fail when the budget is at least 2 |
| LoweringExprs.LowerProductIff | crates/stwo-macros/src/air_fns.rs:528-561 | A product is lowered if and only if a factor is the constant one, the budget is 2 or more, the budget is 1 and a degree is 0, or both degrees are 0 |
| LoweringExprs.BudgetOneRefusesProducts | crates/stwo-macros/src/air_fns.rs:528-561 | With a budget of 1 the product of two columns is refused |
| LoweringExprs.SquareAndMultiplyCorrect | crates/stwo-macros/src/air_fns.rs:563-612 | Exponentiation by squaring, with its materializations, yields accumulator * power ** remaining |
| LowerPreserves.LowerCorrect | crates/stwo-macros/src/air_fns.rs:617-732 | Lowering an expression, through CSE and constant folding, preserves its value and keeps every earlier cell |
| LoweringExprs.SubstituteMeaning | crates/stwo-macros/src/air_fns.rs:335-355 | Substituting a literal in an expression is binding the loop variable |
| SubstitutedBlocks.SubstituteBlockMeaning | crates/stwo-macros/src/air_fns.rs:357-385 | Unrolling by substitution means running the loop body with the variable bound, when no binder is repeated |
| UnshadowedBinders.BlockIsBinding | crates/stwo-macros/src/air_fns.rs:335-385 | When no sum, map, loop or let on the way rebinds the variable, substituting it in a block is binding it, failures included |
| SubstitutedBlocks.CaptureExample | crates/stwo-macros/src/air_fns.rs:335-385 | A concrete block with a repeated binder for which substitution changes the meaning: it is not capture-aware |
| CellNames.SpellingsClash | crates/stwo-macros/src/air_fns.rs:479-488 | Two different cells get the same spelling exactly when one source name already looks like a versioned form of the other |
| CellNames.ClashExample | crates/stwo-macros/src/air_fns.rs:479-488 | Such a clash: the second version of x and a source variable x_v2 |
| LowerActivations.ActivationCorrect | crates/stwo-macros/src/air_fns.rs:881-946 | A table call binds what the callee means on the flattened arguments, and records its activation tuple |
| LowerBlocks.BlockCorrect | crates/stwo-macros/src/air_fns.rs:949-996 | Lowering a block (lets, shadowing, assertions, unrolled loops, spliced calls) preserves its meaning |
| LowerBlocks.SpliceCorrect | crates/stwo-macros/src/air_fns.rs:821-879 | An inline call lowered in the caller's frame means its parameters, body and returns in its own scope |
| LowererClass.LowerFunction | crates/stwo-macros/src/air_fns.rs:1108-1208 | The mutable lowerer, with its loops over statements, exponents and ranges, returns exactly the specified lowering, or fails exactly when it does |
| LowererClass.Lowerer.Product | crates/stwo-macros/src/air_fns.rs:528-561 | The materializing while loop leaves the state and result of the specified product |
| LowererClass.Lowerer.Powers | crates/stwo-macros/src/air_fns.rs:563-612 | The squaring while loop leaves the state and result of the specified exponentiation |
| LowererClass.Lowerer.MaterializeCell | crates/stwo-macros/src/air_fns.rs:510-526 | A cached expression is reused; a new one becomes one column, one fill step and one equality |
| LowererClass.Lowerer.Unroll | crates/stwo-macros/src/air_fns.rs:980-993 | The loop over lo..hi lowers each substituted body in order |
| Activations.PublicActivationsSound | crates/stwo-macros/src/air_fns.rs:1406-1436 | If all rows of all compiled tables satisfy their constraints and the activation bag closes, every public tuple carries the source function's outputs on its inputs, assertions included, through any nesting of calls |
| Activations.RowSound | crates/stwo-macros/src/air_fns.rs:1406-1436 | Every enabled row of accepted tables is a true statement about its source function, by induction over declaration order |
| ActivationTables.SessionCloses | crates/stwo-macros/src/air_fns.rs:1897-1941 | Whatever calls a host makes, the rows pushed consume exactly the public activations, each answer is the source's, and a row satisfies its constraints exactly when its assertions hold |
| ActivationTables.SessionAccepted | crates/stwo-macros/src/air_fns.rs:1897-1941 | The tables of any session form a closed bag over the compiled system |
| ActivationTables.CallBalances | crates/stwo-macros/src/air_fns.rs:1897-1941 | The rows of one call, nested calls included, net to its one activation |
| Qm31Field.ProductLimbsExact | crates/recursion/src/lib.rs:40-68 | The four limb constraints of qm31_mul vanish mod P if and only if c is the product in the degree-4 extension |
| Qm31Field.QMulAssociates | crates/recursion/src/lib.rs:32-68 | The tower product (2 + i, reduced limb-wise) is associative |
| Qm31Field.InverseUnique | crates/recursion/src/qm31_inv.rs:41-86 | An inverse row has one possible output |
| CircuitRows.RowImplements | crates/recursion/src/lib.rs:196-256 | A wired row of any of the three tables outputs the operation on the two wires it consumes |
| Wiring.WiringSound | crates/recursion/src/circuit.rs:172-234 | If limb constraints hold, the op_def and wire bags balance the public terms and disabled rows' emissions cancel at every non-canonical wire, exactly one row implements each arithmetic node and every wired row carries that node's canonical value |
| Wiring.CanonicalIffNoStray | crates/recursion/src/circuit.rs:172-234 | For any accepted rows, gated or not: every enabled row, read wire and claimed wire is canonical if and only if the net emission of disabled rows is 0 mod P at every non-canonical wire |
| Wiring.GatedRowsAreCanonical | crates/recursion/src/linear_ops.rs:50-99 | Disabled linear rows without uses are enough for that |
| Wiring.OutputSound | crates/recursion/src/circuit.rs:231-233 | The claimed output wire is a node of the circuit with its canonical value |
| Wiring.UngatedRowsLie | crates/recursion/src/linear_ops.rs:88-99 | The condition can fail: on a recording that starts from its two inputs, a disabled row with uses = 1 makes a wrong output accepted |
| CircuitLowering.UseCounts | crates/recursion/src/circuit.rs:88-101 | The counting loop gives each node its number of operand uses plus one for the output |
| CircuitLowering.Traces.LowerArena | crates/recursion/src/circuit.rs:105-168 | The lowering loop pushes one row per arithmetic node and claims the inputs and the output |
| CircuitLowering.LoweringBalances | crates/recursion/src/circuit.rs:86-168 | Rows lowered from any well-formed circuits satisfy their constraints and balance the public terms exactly |
| RecorderTheorems.RecordingFaithful | crates/recursion/src/recorder.rs:82-112 | A recording succeeds exactly when evaluation does; every arena reached has operands with smaller ids and node values equal to the operation; the accumulation is the Horner sum of weighted constraints in alpha across components |
| RecorderTheorems.OperationsMaskIndependent | crates/recursion/src/recorder.rs:302-350 | Two recordings of one program on different masks record the same operations and handles |
| RecorderTheorems.CompositionPush | crates/recursion/src/recorder.rs:343-350 | Multiplying the accumulation by alpha and adding one constraint extends the composition |
| Recorder.RecorderObject.BinaryRec | crates/recursion/src/recorder.rs:96-112 | The operator on the shared arena pushes the constants it needs, then one node, as specified |
| Recorder.RecorderObject.Next | crates/recursion/src/recorder.rs:311-324 | A new component records its denominator as an input and gets a fresh LogUp context; arena, alpha, accumulation and mask cursor carry over |
| Recorder.RecorderObject.NextInteractionMask | crates/recursion/src/recorder.rs:330-341 | Records the values of the column under the interaction's cursor in order and moves that cursor, failing as the code does |
| Recorder.MaskIsInputs | crates/recursion/src/recorder.rs:330-341 | Recording a column is one input step of the recorded program for each of its values |
| LogUp.FractionsSumToShift | crates/recursion/src/recorder.rs:372-418 | If every batched constraint vanishes on all n cyclic rows with invertible denominators, all fractions sum to n times the shift, for any consecutive batching |
| LogUp.RowTotal | crates/recursion/src/recorder.rs:372-408 | One row's fractions sum to the growth of its last cumulative column plus the shift |
| SparseTree.BuildPartialMerkleTree | crates/runner/src/commitment.rs:204-266 | The level-by-level loop over occupied pairs computes the specified sparse tree, its nodes and root |
| SparseTree.RootIsFull | crates/runner/src/commitment.rs:204-266 | The sparse root is the root of the complete tree with absent leaves zero, given the default chain; a tree whose leaves all lie out of range returns zero instead |
| SparseTree.ZeroLeavesKeepRoot | crates/runner/src/commitment.rs:204-266 | Leaf maps that differ only in zero leaves have the same root |
| SparseTree.RootsDecideLeaves | crates/runner/src/commitment.rs:204-266 | Equal leaf values give equal roots. Exactly: the roots are equal if and only if every leaf whose value differs lies under a node where the two trees hash different pairs of children to one value |
| SparseTree.MerkleBagCloses | crates/runner/src/commitment.rs:386-400 | The node rows and one root emission cancel the leaf consumptions if and only if every leaf index is in range |
| MemoryTree.CommittedIffOrphans | crates/air/src/schema.rs:1413-1438 | The merkle table the other way round, for any hash function and mod P: every leaf and every emitted claim lies at its index and depth on a hash chain to a published root if and only if this holds of the claims of rows that emit without consuming the hash of their children |
| MemoryTree.SoundIffTied | crates/air/src/schema.rs:1413-1438 | For any kind of rows that consume only hashes of their children: all closed tables of such rows have committed leaves if and only if every row that emits a child consumes a parent, which the table's constraints do not demand |
| MemoryHashes.SplitMeansRearranged | crates/air/src/schema.rs:1434-1436 | With no zero right child, the table's relation of separate tuples closes if and only if the parents are the rows' hashes in some order |
| MemoryHashes.HashedIffPaired | crates/air/src/schema.rs:1434-1436 | The exact condition for the rows of a closed relation to hash their own children: they balance as pairs |
| MemoryHashes.AcceptedLeavesAreCommitted | crates/air/src/schema.rs:1413-1438 | Rows accepted by the table's own relations prove their leaves once multiplicities are tied and inputs bound to hashes |
| MemoryHashes.OrphanAccepted | crates/air/src/schema.rs:1422-1432 | Nothing ties the three multiplicities of a row: next to any accepted rows, one row makes any further claim accepted |
| MemoryHashes.ForgedLeaf | crates/air/src/schema.rs:1422-1432 | A concrete accepted leaf claim that no chain of hashes connects to the only published root |
| MemoryHashes.SelfCancellingNode | crates/air/src/schema.rs:1434-1436 | Two-word inputs and one-word hashes share a relation: a node with the root as left child and zero as right child is accepted without a permutation row, for every root and permutation |
| Tracing.GapTelescopes | crates/air/src/trace.rs:273-299 | The catch-up rows carry the cell's tuple from the old clock to within reach of the new one, value unchanged |
| Tracing.Tracer.FillGap | crates/air/src/trace.rs:273-299 | The while loop pushes exactly the catch-up rows and returns the last clock |
| Tracing.Tracer.TraceMemAccess | crates/air/src/trace.rs:331-360 | A traced access records the first value seen, fills the gap and moves the clock, as specified |
| MachineClasses.Memory.WriteU8Traced | crates/runner/src/memory.rs:118-127 | A byte write traces its aligned word before and after |
| MachineClasses.Memory.WriteU32Traced | crates/runner/src/memory.rs:140-145 | A word write traces the value later read back |
| MachineClasses.ReadBack | crates/runner/src/memory.rs:41-72 | Reading a little-endian word just written gives the word |
| MachineClasses.Cpu.WriteReg | crates/runner/src/cpu.rs:63-70 | A register write traces old and new value; x0 stays zero |
| Machine.RunConserves | crates/air/src/trace.rs:273-360 | Over any run, for every register and memory cell, consumed tuples plus the final tuple equal emitted tuples plus the clock-0 tuple, catch-up rows included, and no clock difference exceeds max_clock_diff |
| Machine.RegistersCancel | crates/prover/src/public_data.rs:205-231 | The register part of the bag is cancelled exactly by the public terms |
| Commitment.CollectMemoryCommitment | crates/runner/src/commitment.rs:268-327 | The collecting loops yield one entry per committed word and exactly the initial and final leaf maps of the segment's role |
| Segments.CommittedWordsCancel | crates/runner/src/commitment.rs:329-364 | The accesses, catch-ups and boundary rows of a committed word that is neither public input nor output cancel |
| Segments.LeavesChain | crates/runner/src/commitment.rs:268-327 | For every layout: final leaves of a segment equal initial leaves of the next, byte by byte, if and only if a first segment accessed its non-zero input words and every non-zero word without a present read-write byte is committed by both segments or by neither |
| Segments.RootsChain | crates/runner/src/commitment.rs:268-327 | The final root equals the next initial root under that condition; exactly, if and only if every leaf that differs is under a hash collision, so a root that agrees without the condition exhibits a changed leaf with a collision above it |
| Segments.SegmentsFollowRun | crates/runner/src/lib.rs:198-229 | Registers and memory at every segment boundary are those of the unsegmented run of the same accesses |
| SegmentLoop.RunSegments | crates/runner/src/lib.rs:169-299 | Halt flag, self-loops, invalid instructions and the cycle limit end the segmented run exactly as the execution without segments; the segments are consecutive in registers, memory and pc, hold all its accesses in order, and none runs past the limit |
| SegmentLoop.ConsecutiveRoots | crates/runner/src/lib.rs:137-142 | In every segmented run, consecutive segments agree on the read-write root if that condition holds, and otherwise only with a hash collision above a changed leaf |
| SegmentLoop.WholeWordRoots | crates/runner/src/lib.rs:137-142 | Where no word is partly read-write, all segments after the first chain unconditionally |
| Layouts.OddEndIsInStack | crates/runner/src/commitment.rs:72-103 | The layout derived from a loaded program ends its I/O region one byte past an aligned address; when that is the bottom of the stack, no word is partly read-write |
| Layouts.LinkerScriptWholeIff | guest/guest-bin/linker.ld:9-60 | With the linker script's symbols no word is partly read-write if and only if the static data ends on a word boundary |
| Layouts.CutWordBreaksChain | crates/runner/src/commitment.rs:268-327 | An input on which the chain breaks: the linker script's layout with two bytes of static data, a non-zero byte just behind them, and that word read by the second of two segments only |
| Openings.HashPairs | crates/recursion/src/openings.rs:496-537 | One level of the walk: the peeking loop pairs neighbours and draws absent siblings from the witness, as specified |
| Openings.FoldHashes | crates/recursion/src/openings.rs:501-532 | Every parent a level builds is the hash of two recorded children, and nothing else is built |
| OpeningWalk.WalkTree | crates/recursion/src/openings.rs:485-542 | The walk from leaves to root returns the specified levels, or fails with "witness too short" or "witness too long" |
| OpeningWalk.WalkHashes | crates/recursion/src/openings.rs:485-542 | Whenever the walk succeeds, at every depth the recorded parent of an on-path node is the hash of that node and its recorded sibling |
| OpeningWalk.OpeningsBind | crates/recursion/src/openings.rs:482-542 | Two accepted walks to one root open the same digest at every position they share, or they recorded two different pairs of siblings on its path with the same hash: for every hash function |
| CanonicalWitness.WalkSucceedsOnExactWitness | crates/recursion/src/openings.rs:485-542 | The walk succeeds if and only if the witness has exactly as many hashes as there are missing siblings; too short and too long are the other two cases |
| CanonicalWitness.OpeningFullTree | crates/recursion/src/openings.rs:485-542 | On the canonical witness of any full tree the walk succeeds, uses the witness exactly and reproduces the tree's digests and root |
| CanonicalWitness.OpeningReadsTree | crates/recursion/src/openings.rs:414-480 | An opening accepted against a full tree's root opens that tree's leaf, or recorded a pair of siblings on its path that collides with the tree's |
| TreeOpening.PathTable.PushPathStep | crates/recursion/src/merkle_path.rs:147-206 | One step pushes a path row that meets its constraints and hashes child and sibling in the order of the direction bit, and its wide permutation row beside it |
| TreeOpening.PushPath | crates/recursion/src/openings.rs:445-478 | On recorded levels that hash to the root, the bottom-up loop pushes the whole path and neither error can occur |
| TreeOpening.FinishTreeOpening | crates/recursion/src/openings.rs:414-480 | Claims are published; an accepted decommitment pushes every path with its permutation rows and keeps the node bag balanced; the only failures are a witness of the wrong length and a root mismatch |
| PathRows.PathTelescopes | crates/recursion/src/merkle_path.rs:88-126 | The rows of one path net to its leaf claim minus the claim at its top, indices agreeing through the shifts |
| TreeOpening.OpeningBalances | crates/recursion/src/prover.rs:202-244 | Path rows, one root emission per path and the leaf consumptions cancel, on top of any balanced bag |
| PathSoundness.LeafIsCommitted | crates/recursion/src/merkle_path.rs:48-124 | If rows meet their constraints, the node bag balances and inputs are bound to digests in pairs, every leaf claim sits at its index and depth on a hash chain to a published root of its tree |
| HashBag.PairsMeanHashed | docs/recursion.md:138-146 | Permutation rows close a relation of (input, digest) pairs for some path rows if and only if each row's parent is the hash of its own inputs |
| HashBag.ClosesIffChained | crates/air/src/schema.rs:1434-1436 | What a relation of separate input and hash tuples says with no side condition: it closes if and only if, in some order, the consumed parents are the ends of chains of zero or more permutations from the emitted inputs |
| HashBag.SplitMeansRearranged | crates/recursion/src/merkle_path.rs:50-88 | The relation as it is, inputs and digests as separate tuples: when no input looks like a padded digest, it can be closed if and only if the parents are the rows' hashes in some order |
| HashBag.HashedIffPaired | crates/recursion/src/merkle_path.rs:50-88 | In such a closed bag every row hashes its own inputs if and only if the same rows also balance in pairs |
| HashBag.FlagsAreModes | crates/stwo-macros/src/air_fns.rs:1730-1735 | The three flag constraints of the permutation table leave exactly the narrow, wide and io modes |
| HashBag.PushingKeeps | crates/recursion/src/merkle_path.rs:147-206 | Pushed steps keep the row constraints, the hash relation balanced, and the pairs balanced |
| PathSoundness.AcceptedLeafIsCommitted | crates/recursion/src/merkle_path.rs:48-124 | What the verifier's own bags prove: under that condition, which is exactly when every row hashes its inputs, every leaf claim is committed |
| PathSoundness.SelfCancellingRow | docs/recursion.md:116-118 | For every root and every permutation, a row with the root as left input, child and parent and zeros on the right is accepted without any permutation row |
| PathSoundness.ForgedLeaf | docs/recursion.md:116-118 | Hence, for a concrete permutation, an accepted leaf claim that no chain of hashes connects to the published root |
| PathSoundness.ExchangedParents | docs/recursion.md:126-137 | Two trees that exchange their parents are accepted, with no input that looks like a digest, and a claimed leaf is not under its root |
| Sponge.HashWordStream | crates/prover/src/poseidon2_channel.rs:63-79 | The word-by-word sponge loop computes the specified hash |
| Sponge.HashIsReplay | crates/recursion/src/channel_replay.rs:199-236 | hash_words of any words is the block-by-block replay of their chunk stream |
| Sponge.ChunkWords | crates/recursion/src/channel_replay.rs:214-232 | The chunking loop yields the rate-sized blocks of the words and the end marker |
| Sponge.ChunkStreamInjective | crates/recursion/src/channel_replay.rs:212-232 | Different word streams have different chunk streams |
| Sponge.LeafHasher.UpdateLeaf | crates/prover/src/poseidon2_channel.rs:205-214 | Incremental absorption keeps the sponge of everything absorbed so far |
| Sponge.LeafHasher.Finalize | crates/prover/src/poseidon2_channel.rs:216-221 | Finalizing gives hash_words of everything absorbed, with the leaf tag |
| Channel.EncodeU32sInjective | crates/prover/src/poseidon2_channel.rs:81-86 | The 16-bit split loses nothing, even beyond the modulus |
| Channel.Poseidon2Channel.MixWords | crates/prover/src/poseidon2_channel.rs:99-103 | Mixing rehashes digest and words and resets the draw counter |
| Channel.Poseidon2Channel.DrawWords | crates/prover/src/poseidon2_channel.rs:105-115 | Drawing leaves the digest and advances the counter |
| ChannelReplay.ReplayTable.PushSpongeStep | crates/recursion/src/channel_replay.rs:150-180 | A step row adds the chunk into the rate, word by word, permutes, and records the permutation's io row |
| ChannelReplay.ReplaySession | crates/recursion/src/channel_replay.rs:276-321 | For every list of operations the replay yields the channel's draws, one chained claim per operation, one row per chunk and one io permutation row per row |
| ChannelReplay.CheckLinks | crates/recursion/src/channel_replay.rs:241-272 | The checking loop accepts or rejects any session as specified, with the four error messages |
| ReplayTheorems.SessionLinksIff | crates/recursion/src/channel_replay.rs:241-321 | check_links accepts a replayed session if and only if no mix of two to seven words carries the draw tag second, and then returns the channel's digest |
| ReplayTheorems.EncodedMixesLink | crates/recursion/src/channel_replay.rs:241-321 | Sessions whose mixes are 16-bit words always link, with the channel's digest |
| ReplayTheorems.TaggedMixRejected | crates/recursion/src/channel_replay.rs:257-263 | The mix of [0, DRAW_TAG] is a session that does not link, for any permutation |
| SessionLinks.AcceptedExactly | crates/recursion/src/channel_replay.rs:241-272 | For any session: check_links accepts if and only if every run starts from the output of the last run without the draw tag and the draws are, in order, the outputs of the runs with it; it returns the last untagged output |
| SessionLinks.RecordedIff | crates/recursion/src/channel_replay.rs:212-316 | An accepted session is the recording of some operations if and only if its ids count up, every run taken for a draw carries the number of draws since the last mix, and every other run is padded as a chunk stream |
| SessionLinks.StreamIffMarked | crates/recursion/src/channel_replay.rs:212-230 | A run is the chunk stream of a digest and some data if and only if it starts with the digest, has a chunk behind it and ends in the marker |
| SessionLinks.UncountedDraw | crates/recursion/src/channel_replay.rs:257-265 | A draw's counter is not looked at: a session whose first draw claims counter 5 is accepted for every permutation, and no list of operations records it |
| ReplayTheorems.ReplayRowsBalance | crates/recursion/src/prover.rs:120-163 | The rows of any claims cancel their public terms on both sponge relations |
| ReplaySoundness.RowsForced | crates/recursion/src/channel_replay.rs:102-145 | Rows that balance poseidon2_io, sponge_step and sponge_data against the public terms are exactly the rows of the claimed runs, each of them and no other |
| ReplaySoundness.RecordedAccepted | crates/recursion/src/channel_replay.rs:276-321 | The rows of any claims, with their io permutation rows, balance all three relations |
| Poseidon2.M4IsMatrix | crates/air/src/poseidon2.rs:89-101 | The addition chain of the 4x4 block is the matrix (5 7 1 3), (4 6 1 1), (1 3 5 7), (1 1 4 6) mod P |
| Poseidon2.ApplyExternalRoundMatrix | crates/air/src/poseidon2.rs:104-130 | The in-place block and column loops compute the external round matrix |
| Poseidon2.BoxAll | crates/air/src/poseidon2.rs:152-161 | Adding constants, squaring twice and multiplying in place is the fifth power of each shifted lane |
| Poseidon2.Permutation | crates/air/src/poseidon2.rs:148-185 | The in-place permutation computes the specified rounds on any state |
| Poseidon2Program.ProgramIsPermutation | crates/air/src/poseidon2.rs:192-248 | The felt program, with its spliced matrices and unrolled rounds, means the plain permutation for all states and constants |
| Poseidon2Rows.ProgramLowers | crates/air/src/poseidon2.rs:192-248 | The program compiles for every degree bound of 3 or more, with one argument column per word of state |
| Poseidon2Rows.AcceptedRowIsPermutation | crates/air/src/poseidon2.rs:192-248 | Any row that satisfies the constraints the program is compiled to carries the plain permutation of its inputs |
| Poseidon2Rows.FilledRowIsPermutation | crates/air/src/poseidon2.rs:250-262 | The filled row of any state satisfies all constraints and returns its permutation |
| AggregationTheorems.SpansMeet | crates/prover/src/recursion/aggregate.rs:50-74 | Two adjacent chained spans meet exactly when their touching segments do, fail for the same reason, and join to the span of both |
| Aggregation.AggregateSegments | crates/prover/src/recursion/aggregate.rs:83-117 | The verifying and folding loops compute the specified outcome and terminate |
| Aggregation.VerifySegments | crates/prover/src/recursion/segments.rs:75-106 | The window loop reports the first adjacent mismatch, then the first flawed proof |
| AggregationTheorems.TreeIsPairwise | crates/prover/src/recursion/aggregate.rs:93-117 | For any number of segments the fold succeeds if and only if all adjacent checks pass, and returns first entry with last exit |
| AggregationTheorems.AggregationIsPairwise | crates/prover/src/recursion/segments.rs:80-105 | Aggregation and the pairwise verifier accept the same proof lists |
| AggregationTheorems.ReportedMismatchIsReal | crates/prover/src/recursion/aggregate.rs:98-108 | On failure the reported `next` is a leaf whose boundary with its left neighbour really mismatches, in the reported field |
| AggregationReport.FailureReports | crates/prover/src/recursion/aggregate.rs:96-111 | A failed fold reports, of all mismatching segments, the leftmost of those whose index has the fewest trailing zeros; prev is next minus its lowest set bit |
| AggregationReport.ReportsNeighboursIff | crates/prover/src/recursion/aggregate.rs:96-111 | The reported pair are neighbours if and only if some odd-numbered segment mismatches its left neighbour |
| AggregationReport.DistantReport | crates/prover/src/recursion/aggregate.rs:96-111 | prev need not be the mismatching neighbour: segments (0, 4), (4, 8), (12, 16) report 0 and 2 |

## Left out

Hypotheses under which results hold:

- CompilerTheorems.LoweringComplete: source binders are distinct (`Hygienic`), because substitution is not capture-aware; inline calls are acyclic (a callee is embedded in its call); `const_eval` is read as "is a literal constant"; two-dimensional host tables are read through one flattened index.
- CompilerTheorems.LoweringSound: same hypotheses; cells are pairs of base name and version, so source names that already look versioned are excluded (`CellNames.SpellingsClash` says exactly when they clash).
- Activations.PublicActivationsSound: multiplicities are integers, so fewer than P emissions of one tuple are assumed.
- DivRow.DivSound: exactly one opcode flag is set on an enabled row and operand limbs are bytes, which other tables guarantee; the clock and program lookups of the row are not modelled.
- AluRows.AddSubRowIff: add and sub only; the bitwise opcodes of the same table read a preprocessed lookup and are not modelled.
- Wiring.WiringSound: emissions of disabled linear rows cancel at non-canonical wires, because the linear table does not gate its emission (`Wiring.CanonicalIffNoStray` shows the condition exact); circuit ids are distinct.
- LogUp.FractionsSumToShift: denominators are invertible; randomness and the probability of a false balance are not modelled.
- BranchSteps.PushBranchLt: columns are read mod P, so the program counter column of an address above P is its residue; the clock, register and program lookups of the row are not modelled.
- Segments.RootsChain: read-write regions lie in the tree.
- Segments.CommittedWordsCancel: words that are public input or public output are excluded, as unread input words and unaligned output words do not balance on their own.
- SparseTree.MerkleBagCloses: the tree is not empty; an empty tree has no node rows and its root is read from the default chain.
- TreeOpening.FinishTreeOpening: positions are below 2^height and height is at most 32, so the narrowing of positions to u32 is exact.
- PathSoundness.LeafIsCommitted: inputs and digests are bound in pairs, which the code's relation of separate tuples does not provide; what that relation does provide is `HashBag.ClosesIffChained`. A leaf index is recovered mod P.
- HashBag.SplitMeansRearranged: no path row's input has an all-zero right half and permutation rows are wide; without this an input and a digest can cancel each other (`HashBag.ClosesIffChained` has no such condition). Multiplicities are integers.
- MemoryTree.CommittedIffOrphans: fewer than P claims are consumed; indices and depths are recovered mod P; the range checks on leaf values are not modelled.
- MemoryHashes.AcceptedLeavesAreCommitted: inputs and hashes are bound in pairs, which the code's relation of separate tuples does not provide (`MemoryHashes.SelfCancellingNode`); multiplicities of the hash relation are integers.
- LowerProgress.LowersIffMeaningful: the degree bound is 3 or more (a bound of 2 refuses products of columns), binders differ, and callees are answered exactly when known and given the right number of arguments.
- Recorder.RecorderObject.Next: of the LogUp context only the claimed sum, the size and the fractions are kept; how fractions are finalized is `LogUp`, on values.
- ReplaySoundness.RowsForced: channel ids are distinct and runs are shorter than P; multiplicities are integers.
- ReplayTheorems.SessionLinksIff: absorbed words are canonical field elements, as the code's debug assertions demand; the draw counter does not wrap.
- Poseidon2Rows.AcceptedRowIsPermutation: the round constants are parameters, the external ones read through one flattened index.
- AggregationTheorems.AggregationIsPairwise: a proof's own verification is a given verdict.
- SegmentLoop.RunSegments: what lies at a program counter is a function of registers, memory and program counter, so decoding and its cache are not modelled, nor is the program-read counter; a failing commitment of a closed segment is left to `Commitment`.

Not modelled:

- stwo itself: FRI folding, quotients, circle domains, commitments; SIMD columns, padding and allocators.
- Parsing and token emission of the macro: the model starts from parsed functions and gives the generated code a meaning directly.
- Transcript randomness and the probabilistic soundness of LogUp.
- The tables mulh, shifts_reg, shifts_imm, load_store, lt_imm, jalr, auipc, lui and base_alu_imm.
- The FRI layer reconstruction (rebuild_subset_evals) and the sorting of columns before leaf hashing (open_lifted_tree).
- ELF loading, decoding, guest crates, SDK, command line, benches, debug tables and proof-of-work grinding: plumbing around the parts modelled here, with little to state beyond what it calls.
