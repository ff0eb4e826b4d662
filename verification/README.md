# Carry-completion adder: a Dafny model of one simulation trial

The program simulates a carry-completion adder, an asynchronous binary adder.
Each bit position carries a two-rail carry: C0 set means "carry out is 0", C1
set means "carry out is 1", and neither means "not yet known". One trial adds
two operands A and B of `width` bits. Cycle 1 resolves every position that
generates a carry (bits 1,1) or kills one (bits 0,0). It also resolves the
least significant position, whose carry-in is 0. Propagation cycles then
resolve the remaining positions, whose bits differ, from the carry of their
neighbour. When every position holds exactly one rail, a final
carry-complete stage is charged. The trial reports the sum, the number of
cycles and `delay = cycles * GATE_DELAY` (GATE_DELAY = 2).

In the source, one trial is inlined in `main`. This model extracts it as
`CarryCompletion.Simulate(width, A, B)`, together with the bit-array helpers
and the literal-pattern constructor. Index `width-1` is the least significant
digit: carries travel from index `width-1` toward index 0, and the carry into
position k is the carry out of position k+1. Values (`Binary.Value`) read
index 0 as the most significant digit.

Modules:

- `BitVector` (bitvector.dfy): bit vectors as `seq<bool>`. Holds `getBit`,
  `setBit`, `clearBit`, zeroed storage and `insertOperand`.
- `Binary` (binary.dfy): the reference semantics, a numeral's value plus
  ripple-carry addition, and the proof that the ripple sum is
  (A + B) mod 2^n.
- `CarryState` (carrystate.dfy): the tri-state carry read off the two rails.
  `Next` is the abstract effect of one propagation cycle. `RunUp`/`MaxRun`
  measure runs of differing bits. Lemmas show that determined carries are
  true carries and that each cycle peels one position off every run.
- `CarryCompletion` (simulator.dfy): the C guard expressions, the initial
  cycle, the per-cycle descending scan with its skip-ahead, the completion
  count, and the whole trial with its cycle count.

Observations the model makes explicit:

- The resolve-to-carry-0 test `((~ai & bi & cin0) | (ai & ~bi & cin0)) + 2`
  is nonzero for every bit input, so it always holds.
  `CarryCompletion.CarryZeroGuard` states this.
  `CarryCompletion.WrittenGuardsFollowCarryIn` proves that at the positions
  which reach the test (bits differ, carry-in known) the written tests
  resolve to the known carry-in. This is the intended rule.
- The kill test `~ai & ~bi` of the initial cycle is also nonzero for every
  bit input, because `~` flips the upper bits of an `unsigned`. It is reached
  only when both bits are 0, so the outcome is unaffected
  (`CarryCompletion.KillGuard`).
- After a skip-ahead, the source writes the sum digit of the resolved position
  into the landing position. The model does the same. In the last cycle no
  skip moves, so the final sum is still exact (`CarryCompletion.ScanOne`,
  `CarryCompletion.PropagationCycle`).

How the program behaves, as the model states it:

- Each cycle resolves only the least significant (highest-index) position of
  each run of undetermined positions, the one next to an already determined
  position. The rest of the run waits for later cycles.
- For width >= 2 the propagation loop always runs at least once. Operands
  with no differing bits therefore take 3 cycles (delay 6). Width 3,
  A = B = "000" gives cycles 3.
- The cycle count is 2 for width 1. For width >= 2 it is 2 + max(1, L), where
  L is the longest run of differing bits among indices 0..width-2.
- `insertOperand` validates nothing. Characters other than '1' leave a bit
  clear.

## Model

| member | source | states |
|---|---|---|
| BitVector.GetBit | CCAdder_N-bit_sim.c:99-106 | the bit at a position reads as 0 or 1, and as 1 exactly when it is set |
| BitVector.SetBit | CCAdder_N-bit_sim.c:108-115 | afterwards the bit at pos reads 1 and every other position is unchanged |
| BitVector.ClearBit | CCAdder_N-bit_sim.c:117-124 | afterwards the bit at pos reads 0 and every other position is unchanged |
| BitVector.Zeros | CCAdder_N-bit_sim.c:168-175 | fresh per-trial storage has every bit clear |
| BitVector.InsertOperand | CCAdder_N-bit_sim.c:82-97 | bit p < num_bits becomes set when pattern[p] is '1' and is otherwise left as it was, including at the terminator of a pattern one character short; bits at or above num_bits are untouched; on zeroed storage bit p is 1 iff pattern[p] is '1' |
| CarryCompletion.KillGuard | CCAdder_N-bit_sim.c:193 | `~ai & ~bi` on unsigned bit values is nonzero for every input |
| CarryCompletion.CarryOneGuard | CCAdder_N-bit_sim.c:234 | the resolve-to-1 test holds exactly when the bits differ and cin1 is set |
| CarryCompletion.CarryZeroGuard | CCAdder_N-bit_sim.c:237 | the resolve-to-0 test with its `+ 2` holds for every input |
| CarryCompletion.WrittenGuardsFollowCarryIn | CCAdder_N-bit_sim.c:232-240 | for differing bits and a known carry-in, the written tests resolve to C1 iff cin1 and otherwise to C0 with cin0 set, so carry-out equals carry-in |
| CarryCompletion.InitialCycle | CCAdder_N-bit_sim.c:184-203 | after cycle 1, bits 1,1 give C1, bits 0,0 give C0, the position width-1 with differing bits gives C0, every other position is undetermined, no position has both rails, and S[k] = A[k] XOR B[k] |
| CarryState.InitialStateMeaning | CCAdder_N-bit_sim.c:189-198 | the positions cycle 1 resolves hold the true carry out, and exactly the positions with a differing-bit run below width-1 stay undetermined |
| CarryCompletion.SkipRun | CCAdder_N-bit_sim.c:244-252 | the skip-ahead stops at the lowest position of the run of undetermined positions below k, just above a determined position or at 0 |
| CarryCompletion.ScanOne | CCAdder_N-bit_sim.c:224-265 | a scan step without skip leaves the visited position in its next state, writes its final sum digit and loads the buffers from its rails |
| CarryCompletion.ScanSkip | CCAdder_N-bit_sim.c:244-263 | a scan step that skips leaves every skipped position undetermined, which is its next state, and continues below the landing position |
| CarryCompletion.ScanPosition | CCAdder_N-bit_sim.c:226-263 | one iteration of the descending scan: resolution from the buffered neighbour carry, skip-ahead, sum write, buffer load; keeps the scan invariant and moves the scan down |
| CarryCompletion.PropagationCycle | CCAdder_N-bit_sim.c:219-265 | after one cycle every position is in the state Next gives it (top of each undetermined run takes its carry-in, all else unchanged); determined rails never change; no position has both rails; if all positions are determined, every sum digit is A XOR B XOR the C1 rail of the next position |
| CarryState.NextSound | CCAdder_N-bit_sim.c:230-240 | a cycle keeps every determined position holding the true carry out, and keeps undetermined positions to those with differing bits |
| CarryState.NextPeelsRuns | CCAdder_N-bit_sim.c:244-252 | if exactly the positions with RunUp > t are undetermined before a cycle, exactly those with RunUp > t+1 are undetermined after it |
| CarryState.RunUpMeaning | CCAdder_N-bit_sim.c:244-252 | RunUp(k) >= m iff positions k..k+m-1 all have differing bits and lie below width-1 |
| CarryState.MaxRunMeaning | CCAdder_N-bit_sim.c:244-252 | MaxRun >= m iff some run of m differing-bit positions lies below width-1, so MaxRun is the longest such run |
| CarryCompletion.CountDone | CCAdder_N-bit_sim.c:271-282 | the completion count reaches width exactly when every position has exactly one rail set |
| CarryCompletion.AdvanceTrial | CCAdder_N-bit_sim.c:217-284 | one more cycle and completion test keep the trial invariant, and the cycle index stays below width |
| CarryCompletion.FinishTrial | CCAdder_N-bit_sim.c:277-287 | at completion the cycles including finalization equal 2 for width 1 and 2 + max(1, longest run) otherwise, lie in [2, width+1], and the rails and sum are the true carries and ripple sum |
| CarryCompletion.CompletionGivesSum | CCAdder_N-bit_sim.c:257-263 | once all positions are determined, C1 holds the true carry out of every position and S is the ripple-carry sum of A and B |
| CarryCompletion.Simulate | CCAdder_N-bit_sim.c:160-287 | a trial ends with every position holding exactly one rail, C1[k] the true carry out of k, S the ripple-carry sum of A and B and S = (A + B) mod 2^width, cycles = 2 for width 1 and 2 + max(1, longest differing run below width-1) otherwise, 2 <= cycles <= width+1, delay = cycles * GATE_DELAY |
| CarryCompletion.ExpectedCyclesBounds | CCAdder_N-bit_sim.c:205-211 | every trial takes 2..width+1 cycles, and only width 1 takes 2 |
| CarryCompletion.EqualOperandsCycles | CCAdder_N-bit_sim.c:208-211 | operands with no differing bits take 2 cycles at width 1 and 3 at any larger width |
| CarryCompletion.WorstCaseCycles | CCAdder_N-bit_sim.c:244-252 | width+1 cycles happen exactly when width <= 2 or positions 0..width-2 all differ |
| CarryCompletion.ScenarioOneBit | CCAdder_N-bit_sim.c:200-211 | width 1, A = "1", B = "0" gives sum "1" and delay 4 |
| CarryCompletion.ScenarioZeros | CCAdder_N-bit_sim.c:208-211 | width 3, A = B = "000" gives sum "000" and 3 cycles |
| CarryCompletion.ScenarioAlternating | CCAdder_N-bit_sim.c:244-252 | width 4, A = "1010" (10), B = "0101" (5) gives sum "1111" and 5 cycles |
| Binary.RippleSumIsAddition | CCAdder_N-bit_sim.c:257-263 | the digit rule S[k] = A[k] XOR B[k] XOR carry-in(k) yields (A + B) mod 2^width |

## Left out

- Random operands: `generateOperand` and the `srand`/`rand` seeding depend on
  a process-wide random generator. Operands are parameters of `Simulate`
  instead.
- `printOperand` is console output for debugging only.
- The outer sweep over widths and runs is left out. So are the `float`
  average, the `printf` report and the write of `run.txt`. They are
  floating-point arithmetic and I/O around the trial. The file is opened
  without a check.
- Packed word storage is left out. The source packs bits into `int` words
  and shifts `1 << pos`, which is undefined for pos >= 32. `setBit` also
  indexes with a hard-coded `/32`. Bits are modelled by position instead, and
  `Simulate` requires 1 <= width <= MAX_BITS (64). Operands are given as
  exactly `width` bits; the storage bits above `width` are zero and never read.
- The C `unsigned` values of bits are modelled as booleans. Only the three
  guard expressions are evaluated on 32-bit words (`KillGuard`,
  `CarryOneGuard`, `CarryZeroGuard`).
- BitVector.InsertOperand: requires the pattern to have at least num_bits - 1
  characters. At exactly num_bits - 1 the last read is the string's
  terminator, which is in bounds and leaves the bit clear; the model covers
  that case. A shorter string makes the source read past its terminator.
