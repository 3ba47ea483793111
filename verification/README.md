# ParticleLife host-side core, modelled in Dafny

ParticleLife is a macOS particle-life simulation. The GPU kernels move the
particles; this model covers the Swift code around them:

- **Particle buffers.**
  - The `ParticleHolder` buffer: `setParticles`, `addParticle`, the
    nearest-particle removal and the statistics counts.
  - The older `Particles` store: a range-checked `setCount` and
    `addParticle`.
- **Torus wrap.** The `wrap(value:max:)` function and its test tables.
- **Attraction matrices.**
  - The generic `Matrix` with its index arithmetic.
  - The 6×6 `Attraction` table.
  - The matrix updates (`AttractionUpdate`), line updates
    (`AttractionLineUpdate`) and presets (`AttractionPreset`).
- **The attraction value stepper.** The state of
  `AttractionMatrixValueView`, bounded by `maxStep`.
- **Small utilities.** The fixed-size `RingBuffer`, the 32-bit-state
  `Xorshift64` generator, and the `Color` enum with its cyclic
  `next`/`prev` and `intValue` round trip.
- **Description lookup.** The first-match lookup of the
  `OptionConvertible`/`LabelConvertible` protocols, and the `ForceFunction`
  labels.
- **The command parser.** `CommandParticleGenerator` turns `color x y` lines
  into particles and aggregates the errors.
- **The particle generators.** Both the `ParticleGeneratorProtocol` family
  and the older `ParticleGenerator` family. The model covers their palettes,
  the colour each particle receives, the grid and band geometry, and which
  buffer slots they write.

Conventions:

- **Numbers.** `Float` is modelled as `real`. Integers are unbounded. The
  `UInt32` colour conversion keeps its range check, and `Xorshift64` is
  modelled on `bv64`/`bv32`.
- **Outside inputs become parameters.** This covers randomness, NaN and
  infinity tests, `Color(from:)` and `Float(String)`. Each is constrained
  only by what the source states about it.
- **Errors and traps.**
  - A Swift `throw` becomes an `Err` result.
  - A trap that the source leaves to its caller becomes a precondition.
- **Layout.** Modules follow the source's types and protocols, such as
  `ParticleHolder`, `Matrix`, `AttractionUpdate` and the two generator
  families. `Lookup` covers the two description protocols, and `Palettes`
  covers the palette struct that both generator files declare. `Results`,
  `Types`, `Text`, `IndexMath` and `GridLayout` hold helpers that several
  modules share and that match no single source file.

## Model

| member | source | states |
|---|---|---|
| Colors.RawValue | ParticleLife/Particle/Color.swift:4-11 | the six cases have raw values 0 to 5, listed in `allCases` order |
| Colors.FromRawValue | ParticleLife/Particle/Color.swift:4-11 | `init(rawValue:)` succeeds exactly on 0..<6 and inverts the raw value |
| Colors.Next | ParticleLife/Particle/Color.swift:39-41 | `next(i)` moves `i` places round the six colours, modulo 6 |
| Colors.Succ | ParticleLife/Particle/Color.swift:35-37 | `next` is `next(1)`: the following colour, with yellow wrapping to red |
| Colors.Pred | ParticleLife/Particle/Color.swift:31-33 | `prev` is `next(5)`: the preceding colour, with red wrapping to yellow |
| Colors.SuccPredInverse | ParticleLife/Particle/Color.swift:31-37 | `next` and `prev` undo each other |
| Colors.NextPeriodic | ParticleLife/Particle/Color.swift:39-41 | six more steps change nothing, and `next(6)` is the identity |
| Colors.NextCompose | ParticleLife/Particle/Color.swift:39-41 | `next(i)` followed by `next(j)` is `next(i + j)` |
| Colors.IntValue | ParticleLife/Utils/IntRepresentable.swift:6 | `intValue` lies in 0..<6 and converts back to the same colour |
| Colors.FromIntValue | ParticleLife/Utils/IntRepresentable.swift:8-10 | `init?(intValue:)` succeeds exactly below 6; the integer must fit in `UInt32` |
| Colors.IntValueRoundTrip | ParticleLife/Utils/IntRepresentable.swift:6-10 | `Color(intValue: c.intValue) == c` |
| Colors.RawValueInjective | ParticleLife/Particle/Color.swift:4-11 | distinct colours have distinct raw values |
| Lookup.FirstIndex | ParticleLife/Utils/OptionConvertible.swift:7-13 | the position of the first case with the description, or -1 exactly when no case has it |
| Lookup.FirstWhere | ParticleLife/Utils/LabelConvertible.swift:7-13 | `init?(_ description:)`: nil exactly when no case matches, otherwise the first matching case |
| Lookup.FirstWhereRoundTrip | ParticleLife/Utils/OptionConvertible.swift:7-17 | with pairwise distinct descriptions, every case is found by its own description |
| ForceFunctions.Description | ParticleLife/Particle/ForceFunction.swift:15-22 | each declared case is labelled `force` followed by its 1-based number |
| ForceFunctions.FromDescription | ParticleLife/Utils/LabelConvertible.swift:7-13 | the label lookup fails exactly on strings that label no case |
| ForceFunctions.DescriptionRoundTrip | ParticleLife/Particle/ForceFunction.swift:6-22 | `allCases` lists each case at its raw value, and every label finds its case |
| Torus.Wrap | ParticleLifeTests/ParticleLifeTests.swift:16-18 | the result lies in `[-max, max)` |
| Torus.WrapUnique | ParticleLifeTests/ParticleLifeTests.swift:15-18 | the result is the only value in range that differs from the input by whole periods |
| Torus.WrapIdentity | ParticleLifeTests/ParticleLifeTests.swift:15-18 | values already in `[-max, max)` are unchanged |
| Torus.WrapIdempotent | ParticleLifeTests/ParticleLifeTests.swift:15-18 | wrapping twice is wrapping once |
| Torus.WrapPeriodic | ParticleLifeTests/ParticleLifeTests.swift:15-18 | adding any number of periods `2*max` does not change the result |
| Torus.WrapUpperBound | ParticleLifeTests/ParticleLifeTests.swift:27 | `max` itself wraps to `-max` |
| Torus.WrapTableMaxOne | ParticleLifeTests/ParticleLifeTests.swift:20-35 | every input/output pair of the `max = 1` table holds exactly |
| Torus.WrapTableMaxThree | ParticleLifeTests/ParticleLifeTests.swift:37-56 | every input/output pair of the `max = 3` table holds exactly |
| Types.MakeParticle | ParticleLife/Particle/Particle.swift:4-6 | the particle has the colour's raw value, the position, zero velocity and no attractors |
| Types.WrapVec | ParticleLife/Particle/ParticleHolder.swift:52 | both components of the wrapped offset lie in `[-max, max)` |
| Types.LengthSquared | ParticleLife/Particle/ParticleHolder.swift:52-54 | the squared length is non-negative |
| ParticleHolder.Init | ParticleLife/Particle/ParticleHolder.swift:8-21 | a new holder is empty, uses all six colours and owns 65536 slots |
| ParticleHolder.SetParticles | ParticleLife/Particle/ParticleHolder.swift:23-33 | fails exactly for more than 65536 particles; on success the active prefix is the list and the count, colour count and other slots are as stated |
| ParticleHolder.AddParticle | ParticleLife/Particle/ParticleHolder.swift:35-43 | no-op at 65535 or more; otherwise writes at the old count, adds exactly one and keeps every other slot |
| ParticleHolder.AddParticleStaysBelowCapacity | ParticleLife/Particle/ParticleHolder.swift:36-42 | appending never takes the count past 65535 |
| ParticleHolder.DistanceSquared | ParticleLife/Particle/ParticleHolder.swift:51-52 | the squared length of the wrapped offset is non-negative |
| ParticleHolder.NearestIndex | ParticleLife/Particle/ParticleHolder.swift:48-58 | -1 exactly when no particle is strictly within the radius; otherwise the least distance, the lowest index among ties |
| ParticleHolder.RemoveAt | ParticleLife/Particle/ParticleHolder.swift:59-64 | removal swaps with the last active slot: count drops by one and the active multiset loses exactly that particle |
| ParticleHolder.RemoveAtMultiset | ParticleLife/Particle/ParticleHolder.swift:60-63 | the swap-and-shrink leaves the original multiset minus the removed particle |
| ParticleHolder.RemoveNearestParticle | ParticleLife/Particle/ParticleHolder.swift:45-65 | unchanged when nothing lies within the radius; otherwise exactly the nearest particle is removed |
| ParticleHolder.CountWhere | ParticleLife/Particle/ParticleHolder.swift:74-76 | a count of particles with a property never exceeds the number of particles |
| ParticleHolder.ColorCountsSum | ParticleLife/Particle/ParticleHolder.swift:70-78 | when every colour is valid, the six colour counts add up to the particle count |
| ParticleHolder.DumpStatistics | ParticleLife/Particle/ParticleHolder.swift:67-93 | the counts of `dumpStatistics`: NaN and infinite counts at most the particle count, per-colour counts that sum to it |
| Particles.Init | ParticleLife/Particle/Particles.swift:7-21 | a new store is empty and uses all six colours |
| Particles.IsEmptyMeansNoParticles | ParticleLife/Particle/Particles.swift:14 | `isEmpty` holds exactly when the active prefix is empty |
| Particles.SetCount | ParticleLife/Particle/Particles.swift:23-32 | the count is checked first, then the colour count, each with its own message; a rejected call changes nothing |
| Particles.AddParticle | ParticleLife/Particle/Particles.swift:39-45 | no-op at 65535 or more; otherwise the count grows by one, the particle is last and the other slots are unchanged |
| Matrices.Make | ParticleLife/Utils/Matrix.swift:8-13 | every cell reads the element at its row-major position |
| Matrices.IndexInBounds | ParticleLife/Utils/Matrix.swift:19-26 | the corrected index of an in-range cell lies inside the element array |
| Matrices.IndexInjective | ParticleLife/Utils/Matrix.swift:19-26 | distinct in-range cells have distinct corrected indices |
| Matrices.IndexAsWrittenSquare | ParticleLife/Utils/Matrix.swift:21 | on square matrices the index as written equals the corrected one |
| Matrices.IndexAsWrittenFailsWhenNotSquare | ParticleLife/Utils/Matrix.swift:21 | with 2 rows and 3 columns cells (1,0) and (0,2) collide; with 3 rows and 2 columns cell (2,1) falls outside the 6 elements |
| Matrices.Set | ParticleLife/Utils/Matrix.swift:23-25 | the written cell reads back the value and every other cell is unchanged |
| Matrices.Filled | ParticleLife/Utils/Matrix.swift:15-17 | every cell holds the fill value |
| Matrices.RowCells | ParticleLife/Utils/Matrix.swift:30 | one row's cells in column order |
| Matrices.Indices | ParticleLife/Utils/Matrix.swift:28-32 | `rows*cols` cells in row-major order, the k-th one at corrected index k |
| Matrices.IndicesListEachCellOnce | ParticleLife/Utils/Matrix.swift:28-32 | every in-range cell is listed, at its row-major position, and none twice |
| Matrices.IndicesMembership | ParticleLife/Utils/Matrix.swift:28-32 | a cell is listed exactly when it is in range |
| Matrices.Extensionality | ParticleLife/Utils/Matrix.swift:3-6 | two matrices of one shape with equal cells are equal |
| Matrices.Modify | ParticleLife/Utils/Matrix.swift:34-38 | applying a transform over distinct cells changes exactly those cells, each once, from its old value |
| Matrices.ModifyElements | ParticleLife/Utils/Matrix.swift:34-38 | `modifyElements` replaces every cell by the transform of its position and old value |
| Matrices.Transpose | ParticleLife/UI/AttractionUpdate.swift:27-28 | the square matrix's cell (r, c) reads the original cell (c, r) |
| Matrices.TransposeInvolution | ParticleLife/UI/AttractionUpdate.swift:27-28 | transposing twice gives the original matrix |
| Matrices.ColorMatrix | ParticleLife/UI/AttractionPreset.swift:16 | `colorMatrix(filledWith:)` is a 6×6 matrix holding the value everywhere |
| Attractions.Slot | ParticleLife/Particle/Attraction.swift:15-22 | `target*6 + to` lies inside the 36-entry table |
| Attractions.SlotBijection | ParticleLife/Particle/Attraction.swift:15-22 | colour pairs and table slots correspond one to one |
| Attractions.SlotInjective | ParticleLife/Particle/Attraction.swift:15-22 | two pairs share a slot only when they are equal |
| Attractions.Make | ParticleLife/Particle/Attraction.swift:6-9 | every pair reads its own entry of the 36-entry matrix |
| Attractions.Default | ParticleLife/Particle/Attraction.swift:11-13 | every pair's attraction starts at zero |
| Attractions.Set | ParticleLife/Particle/Attraction.swift:19-21 | the written pair reads back the value and every other pair is unchanged |
| Attractions.SetGetIdentity | ParticleLife/Particle/Attraction.swift:15-22 | writing back a value just read changes nothing |
| AttractionUpdates.FromDescription | ParticleLife/UI/AttractionUpdate.swift:3-10 | the menu lookup fails exactly on strings that are no case's raw value |
| AttractionUpdates.DescriptionRoundTrip | ParticleLife/UI/AttractionUpdate.swift:3-10 | every update is found by its own raw value |
| AttractionUpdates.RandomizeSteps | ParticleLife/UI/AttractionUpdate.swift:15-16 | every cell is replaced by its own draw |
| AttractionUpdates.RandomizeBounded | ParticleLife/UI/AttractionUpdate.swift:16 | draws in `-10...10` give a matrix within `-10...10` |
| AttractionUpdates.SymmetricRow | ParticleLife/UI/AttractionUpdate.swift:19-23 | one inner-loop pass writes the same draw to (i, j) and (j, i) for its columns |
| AttractionUpdates.SymmetricRows | ParticleLife/UI/AttractionUpdate.swift:17-24 | after rows i and beyond, each upper cell and its mirror hold the same draw |
| AttractionUpdates.SymmetricRandomSteps | ParticleLife/UI/AttractionUpdate.swift:17-24 | every cell holds the draw of its upper-triangle representative |
| AttractionUpdates.SymmetricRandomIsSymmetric | ParticleLife/UI/AttractionUpdate.swift:17-24 | the result is symmetric, and within `-10...10` when the draws are |
| AttractionUpdates.DrawnSymmetric | ParticleLife/UI/AttractionUpdate.swift:17-24 | a 6×6 matrix whose every cell holds the draw of its sorted pair is symmetric, and within `-10...10` when the draws are |
| AttractionUpdates.NegateSteps | ParticleLife/UI/AttractionUpdate.swift:25-26 | every cell is negated |
| AttractionUpdates.NegateInvolution | ParticleLife/UI/AttractionUpdate.swift:25-26 | negating twice restores the matrix |
| AttractionUpdates.NegateBounded | ParticleLife/UI/AttractionUpdate.swift:25-26 | the negation is within `-10...10` exactly when the original is |
| AttractionUpdates.ZeroFill | ParticleLife/UI/AttractionUpdate.swift:29-32 | zero cells take the fill value and non-zero cells are kept |
| AttractionUpdates.ZeroFillLeavesNoZero | ParticleLife/UI/AttractionUpdate.swift:29-32 | with a non-zero fill no zero remains, and a second fill changes nothing |
| AttractionUpdates.ZeroFillBounded | ParticleLife/UI/AttractionUpdate.swift:29-32 | filling with ±10 keeps a matrix within `-10...10` |
| AttractionUpdates.Apply | ParticleLife/UI/AttractionUpdate.swift:13-34 | each of the six cases gives exactly its own update (randomize, symmetric random, negate, transpose, zero to 1, zero to -1) and the result stays a 6×6 matrix |
| AttractionUpdates.ApplyPreservesBounds | ParticleLife/UI/AttractionUpdate.swift:13-34 | every update keeps a matrix within `-10...10` when its draws are in range |
| AttractionLineUpdates.LineCells | ParticleLife/UI/AttractionLineUpdate.swift:11-22 | the cells a line update visits are distinct, in range, and exactly those on the row, column or diagonal within the colour count |
| AttractionLineUpdates.Apply | ParticleLife/UI/AttractionLineUpdate.swift:9-24 | cells on the line take the step and all other cells are unchanged |
| AttractionLineUpdates.ApplyIdempotent | ParticleLife/UI/AttractionLineUpdate.swift:9-24 | applying the same line update twice is applying it once |
| AttractionLineUpdates.ApplyBounded | ParticleLife/UI/AttractionLineUpdate.swift:9-24 | a step within `-10...10` keeps a bounded matrix bounded |
| AttractionPresets.FromDescription | ParticleLife/UI/AttractionPreset.swift:3-10 | the preset lookup fails exactly on strings that are no case's raw value |
| AttractionPresets.DescriptionRoundTrip | ParticleLife/UI/AttractionPreset.swift:3-10 | every preset is found by its own raw value |
| AttractionPresets.NextIndex | ParticleLife/UI/AttractionPreset.swift:33 | `(i + 1) % n` is the next index round the ring |
| AttractionPresets.PrevIndex | ParticleLife/UI/AttractionPreset.swift:32 | `(i - 1 + n) % n` is the previous index round the ring |
| AttractionPresets.PrevOrNextIsAdjacency | ParticleLife/UI/AttractionPreset.swift:32-36 | `j` is `prev` or `next` of `i` exactly when they are cyclic neighbours |
| AttractionPresets.DiagonalSteps | ParticleLife/UI/AttractionPreset.swift:17-28 | `.identity` and `.exclusive` (and `.area`) hold the diagonal value on the diagonal and their fill everywhere else |
| AttractionPresets.ChainSteps | ParticleLife/UI/AttractionPreset.swift:29-40 | inside the `colorCount` block each cell holds its chain entry; outside it the zero fill remains |
| AttractionPresets.SnakeSteps | ParticleLife/UI/AttractionPreset.swift:41-51 | inside the `colorCount` block each cell holds its snake entry; outside it the zero fill remains |
| AttractionPresets.Steps | ParticleLife/UI/AttractionPreset.swift:13-59 | every preset yields a 6×6 matrix |
| AttractionPresets.StepsContent | ParticleLife/UI/AttractionPreset.swift:13-59 | the value of every cell for every preset, including the colour-count block of chain and snake |
| AttractionPresets.ChainSymmetric | ParticleLife/UI/AttractionPreset.swift:29-40 | the chain preset is symmetric |
| AttractionPresets.StepsBounded | ParticleLife/UI/AttractionPreset.swift:13-59 | every preset lies within `-10...10` |
| ValueSteppers.Init | ParticleLife/UI/AttractionMatrixValueView.swift:33-38 | a new view starts at step 0 |
| ValueSteppers.Increment | ParticleLife/UI/AttractionMatrixValueView.swift:49-53 | succeeds exactly below `maxStep`, moving up by one; the delegate is told exactly when the step changed |
| ValueSteppers.Decrement | ParticleLife/UI/AttractionMatrixValueView.swift:55-59 | succeeds exactly above `-maxStep`, moving down by one; the delegate is told exactly when the step changed |
| ValueSteppers.SetStep | ParticleLife/UI/AttractionMatrixValueView.swift:61-64 | the asserted range is required; the delegate is told exactly when the value differs |
| ValueSteppers.IncrementDecrementInverse | ParticleLife/UI/AttractionMatrixValueView.swift:49-59 | a successful increment is undone by a decrement, and the other way round |
| ValueSteppers.AttractionValue | ParticleLife/UI/AttractionMatrixValueView.swift:17-19 | `step / maxStep` lies in `[-1, 1]` and times `maxStep` gives the step back |
| ValueSteppers.Hold | ParticleLife/UI/AttractionMatrixValueView.swift:93-102 | repeated calls move monotonically to the bound and stop there, after at most `2*maxStep` successes |
| RingBuffers.Init | ParticleLife/Utils/RingBuffer.swift:12-14 | `count` slots hold the value and the head is at 0 |
| RingBuffers.Insert | ParticleLife/Utils/RingBuffer.swift:16-23 | the head slot takes the value, other slots stay, the head advances by one modulo the count |
| RingBuffers.InsertAll | ParticleLife/Utils/RingBuffer.swift:16-23 | inserting many values keeps the slot count and a valid head |
| RingBuffers.InsertAllHead | ParticleLife/Utils/RingBuffer.swift:19-22 | after k inserts the head has advanced k places modulo the count |
| RingBuffers.InsertCountTimesRestoresHead | ParticleLife/Utils/RingBuffer.swift:19-22 | `count` inserts bring the head back where it started |
| RingBuffers.Fill | ParticleLife/Utils/RingBuffer.swift:25-27 | every slot holds the value and the head stays |
| RingBuffers.SumOfUpdate | ParticleLife/Utils/RingBuffer.swift:29-31 | replacing one slot changes the sum by the difference |
| RingBuffers.SumAfterInsert | ParticleLife/Utils/RingBuffer.swift:16-31 | an insert replaces the head slot's share of the sum |
| RingBuffers.SumOfConstant | ParticleLife/Utils/RingBuffer.swift:29-31 | n equal slots sum to n times the value |
| RingBuffers.SumAfterFill | ParticleLife/Utils/RingBuffer.swift:25-31 | after a fill the sum is count times the value |
| RingBuffers.Average | ParticleLife/Utils/RingBuffer.swift:33-35 | undefined (NaN) exactly for zero slots; otherwise times the count it gives the sum |
| RingBuffers.AverageAfterFill | ParticleLife/Utils/RingBuffer.swift:25-35 | after a fill the average is the fill value |
| Xorshift.Next | ParticleLife/Utils/Xorshift64.swift:6-13 | the new state is the low 32 bits of the output, and the output fits in 50 bits |
| Xorshift.NextState | ParticleLife/Utils/Xorshift64.swift:11 | the truncating conversion keeps exactly the low 32 bits |
| Xorshift.LowWord | ParticleLife/Utils/Xorshift64.swift:11 | `UInt32(truncatingIfNeeded:)` is masking with `0xFFFF_FFFF` |
| Xorshift.ScrambleFitsIn50Bits | ParticleLife/Utils/Xorshift64.swift:7-10 | from a 32-bit state no shift loses a bit and the output is below 2^50 |
| Xorshift.ShiftLeft13 | ParticleLife/Utils/Xorshift64.swift:8 | the first step of a 32-bit value stays below 2^45 without losing bits |
| Xorshift.ShiftRight17 | ParticleLife/Utils/Xorshift64.swift:9 | the second step stays below 2^45 |
| Xorshift.ShiftLeft5 | ParticleLife/Utils/Xorshift64.swift:10 | the third step stays below 2^50 without losing bits |
| Xorshift.FirstDrawFromDefaultSeed | ParticleLife/Utils/Xorshift64.swift:4-13 | from the seed 20240816 the first output is 5453939671697 and the state 3626173073 |
| Xorshift.Draws | ParticleLife/Utils/Xorshift64.swift:6-13 | a run of n draws has n outputs and starts with the first draw |
| Xorshift.DrawsBelow | ParticleLife/Utils/Xorshift64.swift:6-13 | every draw of a run is below 2^50 |
| Xorshift.DrawsTail | ParticleLife/Utils/Xorshift64.swift:11 | after the first draw, the run continues as the draws of the truncated generator |
| Xorshift.DrawsSecond | ParticleLife/Utils/Xorshift64.swift:11 | the second draw is computed from the low 32 bits of the first |
| Xorshift.DrawsChain | ParticleLife/Utils/Xorshift64.swift:11 | each draw is computed from the low 32 bits of the one before |
| Text.FirstIn | ParticleLife/UI/CommandViewController.swift:65 | the first position holding a character of the set, with no such character before it |
| Text.Split | ParticleLife/UI/CommandViewController.swift:36 | `components(separatedBy:)` gives at least one piece and no piece holds a separator |
| Text.SplitJoin | ParticleLife/UI/CommandViewController.swift:36 | joining the pieces with the single separator used gives the text back |
| Text.SplitCount | ParticleLife/UI/CommandViewController.swift:36 | there is one more piece than separator characters |
| Text.NonEmpty | ParticleLife/UI/CommandViewController.swift:66 | `filter { !$0.isEmpty }` keeps only non-empty pieces of the input and drops none of them |
| Text.NonEmptySingleton | ParticleLife/UI/CommandViewController.swift:66 | a single piece is kept exactly when it is not empty |
| Text.NonEmptyAppend | ParticleLife/UI/CommandViewController.swift:66 | the filter distributes over concatenation, so the kept pieces stay in order and keep their repetitions |
| Text.NatToString | ParticleLife/UI/CommandViewController.swift:52-55 | the decimal digits of a line number or count, with no leading zero, denote the number |
| Commands.ArrayDescription | ParticleLife/UI/CommandViewController.swift:73 | the token list is printed between brackets |
| Commands.StripComment | ParticleLife/UI/CommandViewController.swift:65 | the command is the longest prefix of the line without `#` |
| Commands.Tokens | ParticleLife/UI/CommandViewController.swift:65-66 | every token is non-empty and holds neither whitespace nor `#` |
| Commands.SplitPiecesAreInfixes | ParticleLife/UI/CommandViewController.swift:66 | every character of a piece comes from the text it was split from |
| Commands.ProcessLine | ParticleLife/UI/CommandViewController.swift:64-89 | no particle exactly for a blank line; an error exactly for a token count other than 3; otherwise colour, x and y are checked in order and the first failure is reported; success builds the particle from the three values |
| Commands.Outcomes | ParticleLife/UI/CommandViewController.swift:36-48 | one outcome per newline-separated line, in order |
| Commands.ParticlesOf | ParticleLife/UI/CommandViewController.swift:42-44 | the collected particles come from accepted lines only, at most one per line |
| Commands.ErrorsOf | ParticleLife/UI/CommandViewController.swift:39-52 | each reported error carries the 1-based number of a line that failed with it, in strictly ascending order |
| Commands.ErrorsOfComplete | ParticleLife/UI/CommandViewController.swift:45-51 | every failing line is reported, so there are no errors exactly when every line was accepted |
| Commands.Summary | ParticleLife/UI/CommandViewController.swift:54-56 | up to five messages are shown as they are; beyond that the first five and a count of the rest |
| Commands.Generate | ParticleLife/UI/CommandViewController.swift:32-62 | succeeds exactly when every line is accepted, returning all their particles in line order; otherwise throws the report of all failing lines and returns no particle |
| Commands.OneParticlePerCommandLine | ParticleLife/UI/CommandViewController.swift:42-44 | with no error, the particle count is the number of non-blank lines |
| IndexMath.DivModUnique | ParticleLife/Particle/ParticleGeneratorProtocol.swift:186 | quotient and remainder by a positive divisor are unique |
| IndexMath.Log2Floor | ParticleLife/Particle/ParticleGeneratorProtocol.swift:166 | `Int(log2(cc))` is the exponent k with `2^k <= cc < 2^(k+1)` |
| IndexMath.Log2FloorBelow | ParticleLife/Particle/ParticleGeneratorProtocol.swift:162-166 | a draw from `1...(1 << n) - 1` has `floor(log2)` below n |
| IndexMath.Log2FloorOfPower | ParticleLife/Particle/ParticleGeneratorProtocol.swift:165-166 | drawing `1 << k` gives exponent k, so every exponent below n is reachable |
| IndexMath.CeilSqrt | ParticleLife/Particle/ParticleGeneratorProtocol.swift:180 | `ceil(sqrt(n))` is the least r with `n <= r*r` |
| IndexMath.CeilSqrtUnique | ParticleLife/Particle/ParticleGeneratorProtocol.swift:180 | only one number satisfies that characterisation |
| IndexMath.GridDivMod | ParticleLife/Particle/ParticleGeneratorProtocol.swift:180-186 | for an index below a count of at most `rows*rows`, row and column are below `rows` and recombine to the index |
| Palettes.Identity | ParticleLife/Particle/ParticleGeneratorProtocol.swift:202-204 | the identity table maps each slot to itself |
| Palettes.Random | ParticleLife/Particle/ParticleGeneratorProtocol.swift:198-200 | a shuffled table is a valid palette of the same size |
| Palettes.Choose | ParticleLife/Particle/ParticleGeneratorProtocol.swift:20-26 | a fixed generator uses the identity table and any other the shuffle it is given; either way a valid palette of `colorCountToUse` entries |
| Palettes.Get | ParticleLife/Particle/ParticleGeneratorProtocol.swift:206-208 | the colour is the table entry at `i % count`, always one of the first `count` colours |
| Palettes.IdentityGet | ParticleLife/Particle/ParticleGenerator.swift:189-195 | the identity palette gives particle i the colour `i % count` |
| Palettes.GetResidue | ParticleLife/Particle/ParticleGeneratorProtocol.swift:206-208 | `get` depends only on the residue of its index |
| Palettes.GetInjective | ParticleLife/Particle/ParticleGeneratorProtocol.swift:198-208 | any palette gives distinct colours to `count` consecutive indices |
| GridLayout.Rows | ParticleLife/Particle/ParticleGeneratorProtocol.swift:180 | `rows*rows` covers the count and `(rows-1)^2` does not |
| GridLayout.CellOf | ParticleLife/Particle/ParticleGeneratorProtocol.swift:186 | row and column are both below `rows` and `row*rows + col` is the index |
| GridLayout.Coordinate | ParticleLife/Particle/ParticleGeneratorProtocol.swift:187-188 | a cell centre lies strictly inside the span |
| GridLayout.CoordinateInjective | ParticleLife/Particle/ParticleGeneratorProtocol.swift:187-188 | different steps have different centres |
| GridLayout.Position | ParticleLife/Particle/ParticleGeneratorProtocol.swift:180-190 | a grid position lies strictly inside the square |
| GridLayout.PositionInjective | ParticleLife/Particle/ParticleGeneratorProtocol.swift:180-190 | no two particles of a grid share a position |
| GridLayout.Band | ParticleLife/Particle/ParticleGeneratorProtocol.swift:88-92 | band c of n lies within the span and is non-empty |
| GridLayout.BandsOrdered | ParticleLife/Particle/ParticleGeneratorProtocol.swift:88-92 | a lower band ends no later than a higher one starts |
| GridLayout.BandsDisjoint | ParticleLife/Particle/ParticleGeneratorProtocol.swift:88-92 | a value lies in at most one band |
| ProtocolGenerators.IndexOf | ParticleLife/Particle/ParticleGeneratorProtocol.swift:34-42 | each generator type appears in `allCases` at its declaration position |
| ProtocolGenerators.FromLabel | ParticleLife/Particle/ParticleGeneratorProtocol.swift:34-42 | the menu lookup fails exactly on strings that are no type's raw value |
| ProtocolGenerators.LabelRoundTrip | ParticleLife/Particle/ParticleGeneratorProtocol.swift:34-42 | every type is found by its own raw value |
| ProtocolGenerators.MakeGenerator | ParticleLife/Particle/ParticleGeneratorProtocol.swift:45-62 | the parameters pass through; both circle entries build the circle generator, and only "Unit circle" fixes radius 1 |
| ProtocolGenerators.MakeGeneratorInjective | ParticleLife/Particle/ParticleGeneratorProtocol.swift:45-62 | different menu entries build different generators |
| ProtocolGenerators.Body | ParticleLife/Particle/ParticleGeneratorProtocol.swift:70-192 | every particle gets one of the first `colorCountToUse` colours, chosen per generator; grid and partition positions are as computed |
| ProtocolGenerators.FixedPaletteColor | ParticleLife/Particle/ParticleGeneratorProtocol.swift:20-26 | with a fixed palette every non-imbalance generator colours particle i with `i % n` |
| ProtocolGenerators.PartitionColorMatchesBand | ParticleLife/Particle/ParticleGeneratorProtocol.swift:89-92 | two partition particles share a colour exactly when they share a band |
| ProtocolGenerators.PartitionInSquare | ParticleLife/Particle/ParticleGeneratorProtocol.swift:88-93 | a draw within its band gives x in `[-1, 1)`, while y keeps its drawn range `[0, 2)` |
| ProtocolGenerators.GridPositions | ParticleLife/Particle/ParticleGeneratorProtocol.swift:177-192 | grid particles lie strictly inside `[-1, 1)` and are pairwise apart |
| ProtocolGenerators.ImbalanceReachesEveryEntry | ParticleLife/Particle/ParticleGeneratorProtocol.swift:162-167 | each of the first `colorCountToUse` palette entries can be drawn |
| ProtocolGenerators.Generate | ParticleLife/Particle/ParticleGeneratorProtocol.swift:28-31 | fails exactly when `setCount` rejects, then writing nothing; otherwise every slot below the count is written once, in order, and the rest keep their contents |
| LegacyGenerators.IndexOf | ParticleLife/Particle/ParticleGenerator.swift:32-41 | each type appears in `allTypes` at its position |
| LegacyGenerators.Get | ParticleLife/Particle/ParticleGenerator.swift:43-45 | `get(for:)` gives the first type with the label, or nil exactly when no type has it |
| LegacyGenerators.LabelRoundTrip | ParticleLife/Particle/ParticleGenerator.swift:32-41 | the six labels are distinct, so each type is found by its own label |
| LegacyGenerators.Body | ParticleLife/Particle/ParticleGenerator.swift:54-179 | every particle gets one of the first `colorCountToUse` colours, chosen per type; grid positions are as computed |
| LegacyGenerators.ShiftedIntoUnitSquare | ParticleLife/Particle/ParticleGenerator.swift:89-135 | the circle shift by 0.5 and the ring map `(p + 1) / 2` move their points into the unit square |
| LegacyGenerators.GridPositions | ParticleLife/Particle/ParticleGenerator.swift:167-177 | grid particles lie strictly inside the unit square and are pairwise apart |
| LegacyGenerators.FixedPaletteColor | ParticleLife/Particle/ParticleGenerator.swift:189-195 | with `noReplacement` every non-imbalance type colours particle i with `i % n` |
| LegacyGenerators.Generate | ParticleLife/Particle/ParticleGenerator.swift:54-179 | only slots below `particleCount` are written, each once, in order |

## Left out

- The Metal kernels, the GPU pipeline and concurrency (Renderer.swift and
  ParticleLifeController.swift) are not modelled. `ParticleHolder` keeps a
  single `MTLBuffer`; the model keeps one sequence of particles.
- UI views, bindings, menus, tooltips and colours are not modelled. This
  includes `Color.rgb`/`nsColor` and the `NSPopUpButton`/`NSMenu` helpers
  of the two lookup protocols.
- Text formatting of numbers is not modelled: `Attraction.description`,
  `Matrix.stringify` and the string returned by `dumpStatistics`. The
  statistics counts are modelled.
- `Float` rounding is not modelled: values are exact reals.
  - NaN and infinity appear only as the predicates passed to the
    statistics.
  - `log2` and `ceil(sqrt(...))` are modelled as exact integer functions.
    For the inputs they get (below 64 and at most 65536), `Float` gives the
    same results.
- Randomness is not modelled; draws are parameters. This covers
  `Float.random`, `Int.random`, `shuffled` and `randomElement`.
  - The `fixed` choice of `Xorshift64` over the system generator is not
    tied to the draws.
  - The statistical mean check of `testXorshift` is not modelled.
- `Color(from:)` and `Float(String)` are parameters, because their parsing
  is outside the files modelled.
- `ProtocolGenerators.Body`: the positions of the uniform, circle,
  rainbow-ring and imbalance generators are the drawn values. They are not
  computed, because they come from `Float.random`, the rejection loop, `cos`
  and `sin`.
- `LegacyGenerators.Body`: the same holds for the older family's drawn
  positions.
- `Commands.ArrayDescription`: Swift escapes quotes and backslashes inside
  the printed tokens. The model does not.
- `Text.Split`: text is split per Unicode scalar. Swift's grapheme
  handling of `"\r\n"` is not modelled.
- `ValueSteppers.Hold`: the 500 ms and 100 ms sleeps and the cancellation
  of the hold task are not modelled. Only the sequence of calls is.
- `Particle.random` and `randomInUnitCircle` are not modelled: they are
  random helpers with no other behaviour.
- `AttractionLineUpdates.Apply`: requires `0 <= colorCount <= 6`. It
  leaves out the larger counts that do not trap: `.row(color)` with
  `color * 6 + colorCount <= 36`, which writes the cells after the row
  (ParticleLife/UI/AttractionLineUpdate.swift:13-14 through the subscript of
  ParticleLife/Utils/Matrix.swift:20-27).
- `LegacyGenerators.Generate`, `LegacyGenerators.Body` and
  `LegacyGenerators.PaletteOf`: require a colour count in `1...6`. This
  leaves out inputs that do not trap. Uniform and circle run with a
  negative count down to `-6`, because Swift's truncating `%` keeps
  `i % colorCountToUse` in `0..<|colorCountToUse|`
  (ParticleLife/Particle/ParticleGenerator.swift:57,94). With a
  `particleCount` of 0, every kind also runs with a count of 0 or above 6.
  The caller checks only the particle count
  (ParticleLife/Particle/Renderer.swift:83-93).
- `Matrices.Get`, `Matrices.Set`, `Matrices.Make` and
  `Matrices.ModifyElements`: address cell (r, c) as `r * cols + c`. The
  source writes `r * rows + c`. The two agree on the square matrices the
  program builds. On other shapes the model follows the corrected layout
  (see Findings).

## Notes on the code

- **`setParticles`.** `ParticleHolder.setParticles` does not check the
  colour count (ParticleLife/Particle/ParticleHolder.swift:23-33), and
  neither does `ParticleHolder.SetParticles`.
- **`generate(particles:)`.** It calls `setCount` with one argument, which
  does not match `Particles.setCount(count:colorCount:)`.
  `ProtocolGenerators.Generate` passes the generator's `colorCountToUse`
  as the colour count. That range check is also what keeps the body's
  `Color(intValue:)!` from trapping.
- **Colour-count error.** The message says the colour count must lie in
  `[0, 6]`, but 0 is rejected. The model keeps the message as written.
- **Partition generator.** It subtracts `(1, 0)` from the drawn point, so
  y stays in `[0, 2)` rather than `[-1, 1)`.
- **Helpers called but not defined in the files modelled.**
  - `transpose()` is modelled as the plain transpose.
  - `colorMatrix(filledWith:)` is modelled as a 6×6 fill.
  - `SIMD2.wrapped(max:)` (ParticleLife/Particle/ParticleHolder.swift:52,54)
    is modelled as the wrap of `wrap(value:max:)` applied to each
    component (`Types.WrapVec`).

## Findings

| source | as written | input that shows it | evidently intended | confidence | as-written member | corrected member |
|---|---|---|---|---|---|---|
| ParticleLife/Utils/Matrix.swift:21 | the subscript reads `elements[row*rows + col]` | a 2×3 matrix: cells (1,0) and (0,2) both map to element 2; a 3×2 matrix: cell (2,1) maps to 7, beyond its 6 elements | `row*cols + col`, the row-major layout that `indices()` walks | high for non-square matrices; every matrix the program builds is 6×6, where both agree; not executed | Matrices.IndexAsWrittenFailsWhenNotSquare | Matrices.IndexInjective |
