# MTE verification

A Dafny model, with proofs, of the two cores of the Micro Translation Engine:

* **the translation block**: MIPS32 words are lifted to IR, guest registers are associated with
  host registers, operands are renamed, three-operand IR is expanded to two-operand IR, dead
  associations are dropped at fragment boundaries, and the IR is emitted as x86-64 bytes;
* **the pipeline**: producers push payloads into a bucket pool guarded by an atomic bitmap and four
  presence counters, one scheduler moves them to vrows, and each vrow's worker moves its payload
  through three banks by toggling bits of a state byte.

Run `dafny verify dfyconfig.toml` (Dafny 4.11) to check everything.

## How it is organised

| files | contents |
|---|---|
| `Wrappers`, `Bits`, `Words` | options; wrapping arithmetic and bitwise operations on naturals; words used as bitmaps |
| `Ir`, `Mips`, `Cpu` | IR opcodes and their meaning, guest words and their meaning, register roles |
| `Alloc`, `InstrFix`, `Passes`, `Tblock` | the allocator, the per-instruction steps, the block passes: imperative methods, each equal to a specification function |
| `Emit`, `Lower`, `Decode`, `Encoding`, `MemoryForms` | the emitter, the lowering of IR, an independent decoder, and when the two agree: registers, streams of them, memory operands |
| `Expansion`, `AllocInvariant`, `Simulation`, `Correctness`, `Fragments`, `Flushing`, `EndToEnd`, `WordEncoding`, `Blocks` | the theorems about translation: words, flush-free runs, fragments, whole blocks, bytes |
| `Witnesses`, `WordWitnesses`, `ValueLoss` | concrete blocks |
| `SyncMap`, `Ranges`, `PriorityQueue`, `Bitpool`, `Vrow`, `Sched` | the pipeline's data structures and loops: imperative methods over specification functions |
| `QueueRuns`, `Drain`, `WidePools` | runs of the queue with atomic pushes and scheduler cycles |
| `Producers`, `Ledgers`, `Races`, `Starvation` | every interleaving of any number of producers with the scheduler, access by access: counters, payloads, runs that lose one, and what a collision leaves behind |
| `Handshake`, `Handover` | every interleaving of the scheduler with any number of vrow workers, access by access |
| `Pipeline` | the two joined: producers, scheduler and workers at once |

Machine words that the program uses as bitmaps (role masks, liveness bytes, map words, the state
byte) are sets of bit positions. Registers and counters are naturals with explicit wrap-around;
opcodes and emitted bytes are bit vectors. An assertion that stops the program is a result value
(`StoppedOnWord`, `StoppedOnBuffer`, `StoppedOnOperandOrder`, `DivisionByZero`, `Aborted`, `Stops`).

## What the code does, where it differs from what one expects

The model follows the code. Each of these is either stated with the exact condition under which the
expected property holds, or shown by a concrete run.

* The association walk ends at the first operand that is already associated
  (`AllocInvariant.FillCoversExactly`), so a source can be read that was never associated
  (`WordWitnesses.WalkEndsEarly`).
* Expansion overwrites the second source when it is also the destination and the first source is
  another register (`Expansion.ExpansionExact`).
* The renaming ignores the spill flag: a spilled guest is kept in the host register with the low byte
  of its slot number. That works as long as no two ids share their low bytes
  (`Correctness.RunTracks`); otherwise each of the two guests can cost the other its value
  (`WordWitnesses.SpillOverwritesGuest`, `WordWitnesses.GuestOverwritesSpill`). Operands that were
  never associated are renamed to register 0. Exactly which words are translated correctly is
  `Correctness.WordCorrectExactly`, and `Correctness.WordKeepsExactly` for any set of guests.
* A flush frees state entries by guest number while the allocator indexes them by host number
  (`Flushing.FlushSoundExactly`, `Flushing.FlushExactExactly`, `Witnesses.FlushCollision`).
* A flush drops associations without storing values. Which guests keep theirs across the fragments of
  a block is `Blocks.BlockHoldsKnown`; `ValueLoss.LosesValue` is a block that loses one although its
  flushes are safe.
* Liveness entries have eight bits and every block has sixteen fragments, so leaving a later
  fragment drops everything (`Flushing.FlushFollowsScan`). The comments call the entries 16-bit and
  give 16-byte fragments; the code computes `(64 << type) / 16` as the fragment size in bytes, which
  is 32 or 8, and there are always sixteen fragments.
* The operand exchange for r/m-first forms is applied twice for REX and once for ModRM
  (`Encoding.EncodingExact`). A word that mixes the two halves of the host registers is encoded
  wrongly (`WordEncoding.WordEncodedExactly`), which can happen to the first word of a block
  (`WordEncoding.MixedWordIsWrong`).
* The emitter takes SIB byte and displacement from operand 0, the extension bit of the index from the
  base, and leaves out a ModRM or SIB byte that is zero. Which memory operands come out right is
  `MemoryForms.StoreEncodedExactly` and `MemoryForms.LoadEncodedExactly`; several of the emitter's own
  test operands do not (`MemoryForms.SuiteStores`, `MemoryForms.SuiteLoads`).
* The role masks of the guest, which nothing reads, lack register 8 (`Cpu.GuestTable`).
* The unsignal search passes over a first word that is full from its start bit upward, so a full
  real-priority range stops the 64-bucket queue for good (`Drain.StuckForever`,
  `Drain.UrgentBurstSticks`).
* Rounded range sizes can exceed the number of positions by one, and the first position of the
  lowest range then wraps (`Ranges.TilesExactly`, `Ranges.RangesCanWrap`). The offload preset is
  accepted and then divides by zero (`Ranges.OffloadDividesByZero`).
* Setting a free bit is a load followed by an unconditional OR, and an unloaded bucket's bit is
  cleared twice, so producers can collide with each other (`Races.ProducersRace`) and with the
  scheduler (`Races.RefillRace`). Counters then exceed the set bits by exactly the collisions
  (`Producers.QuietCountsExactly`), and as many payloads are lost (`Ledgers.QuietLosesExactly`). One
  collision also keeps everything less urgent from being delivered once its range is empty, until
  somebody pushes into that range again (`Starvation.CollisionStarves`).
* A producer sets the bit before it fills the bucket, so the scheduler can take a bucket that is not
  filled yet: without any collision an old payload is delivered again and the new one never
  (`Races.EarlyTake`). Besides collisions nothing else loses or doubles a payload (`Ledgers.QuietConservesExactly`).
* The scheduler is told a bucket index in eight bits, while pools of any multiple of 64 buckets can be
  created: payloads are conserved exactly up to 256 buckets (`WidePools.ConservesExactly`).
* Dispositions are never used up, so priority is strict (`QueueRuns.StrictPriority`).

## Model

| member | source | states |
|---|---|---|
| Alloc.FirstFree | win64/user/src/mte/ir/tblock/asm/asm_alloc.c:31-60 | the mask-clearing search finds the lowest free register of the mask, and fails exactly when all of them are occupied |
| Alloc.AllocSpace | win64/user/src/mte/ir/tblock/asm/asm_alloc.c:8-68 | the lowest free host register of the role is returned and marked occupied; with none free a spill is returned and no state changes |
| InstrFix.FillAssoc | win64/user/src/mte/ir/tblock/asm/asm_instr_fix.c:4-65 | the loop's tables and spill count equal the recursive walk that stops at the first operand already associated |
| InstrFix.FixInstr | win64/user/src/mte/ir/tblock/asm/asm_instr_fix.c:67-92 | every counted operand is renamed to the low byte of its association's id, spilled or not, and nothing else changes |
| InstrFix.ExpandInstr | win64/user/src/mte/ir/tblock/asm/asm_instr_fix.c:94-196 | writes exactly the expansion at its place in the buffer and leaves the rest alone, or refuses a form or a buffer with one free entry and leaves all of it alone |
| InstrFix.FlushByLiveness | win64/user/src/mte/ir/tblock/asm/asm_instr_fix.c:198-243 | for each of the 32 guests not alive in the fragment, both the association and the state entry with the guest's number are reset; all other entries stay |
| Mips.Low32Homomorphism | win64/user/src/mte/asm/mips/tables/mips32_op_tables.c:3-9 | for add, or, and, sub, the low half of the 64-bit host result is the 32-bit wrap-around result of the low halves |
| Mips.TypeExactly | win64/user/src/mte/asm/mips/mips32_instr.h:50-57 | the R-type words are exactly those below 2^26, the J-type words those with opcode 2 or 3 |
| Mips.SupportedExactly | win64/user/src/mte/asm/mips/tables/mips32_op_tables.c:3-9 | a word has an IR opcode if and only if it is below 2^26 and its low six bits are 0x20, 0x22, 0x24 or 0x25 |
| Mips.FieldsReadBack | win64/user/src/mte/asm/mips/mips32_instr.h:36-48 | a word put together from any five fields is R-type, and all five read back |
| Mips.AddAndSub | win64/user/src/mte/asm/mips/tables/mips32_op_tables.c:3-9 | addition wraps once at 2^32, and subtraction undoes it |
| Mips.AndOrBits | win64/user/src/mte/asm/mips/tables/mips32_op_tables.c:3-9 | every bit of and, or is the conjunction, disjunction of the bits of the operands |
| Cpu.HostTable | win64/user/src/mte/asm/intel/i64_cpu.c:3-34 | the role masks that the allocation searches and the register table of the host say the same |
| Cpu.GuestTable | win64/user/src/mte/asm/mips/mips32_cpu.c:3-51 | the register table of the guest and its role masks say the same, except for register 8 |
| Ir.SwapToMov | win64/user/src/mte/ir/ir_opcode.h:98-105 | replacing the group by MOV yields a MOV opcode of the same width and return bit, for every opcode |
| Ir.PackReadsBack | win64/user/src/mte/ir/ir_opcode.h:34-35 | return bit, width, flags and group of every packed opcode read back |
| Expansion.ExpansionExact | win64/user/src/mte/ir/tblock/asm/asm_instr_fix.c:134-195 | two-operand expansion has the effect of the three-operand instruction on every register file if and only if the destination is not the second source or is also the first |
| Expansion.ListExpansionPreserves | win64/user/src/mte/ir/tblock/asm/asm_instr_fix.c:134-195 | for every list of such instructions the expanded list has the same effect on every register file |
| Expansion.ExpansionAccepted | win64/user/src/mte/asm/intel/i64_ir.c:34-37 | the expansion passes the emitter's operand-order assertion if and only if the opcode does not itself demand a different destination; all of it keeps the width |
| AllocInvariant.RunKeeps | win64/user/src/mte/ir/tblock/asm/asm_instr_fix.c:38-64 | over every flush-free run: no two guests share a host register, roles are kept, slots are distinct, associations only grow, and host registers are occupied exactly when associated |
| AllocInvariant.NewBlockRunKeeps | win64/user/src/mte/ir/tblock/tblock.c:6-33 | a run of any length from a new block ends with exact tables and slot numbers to spare |
| AllocInvariant.FillCoversExactly | win64/user/src/mte/ir/tblock/asm/asm_instr_fix.c:38-64 | all three operands are associated after the walk if and only if those behind the first associated one were associated before |
| AllocInvariant.SpillsExactlyWhenFull | win64/user/src/mte/ir/tblock/asm/asm_alloc.c:27-67 | an allocation spills if and only if the guests of that role already hold as many host registers as the role has |
| Simulation.RunSimulates | win64/user/src/mte/ir/tblock/tblock_pass.c:114-155 | for any flush-free run of add/or/and/sub words whose operands have host registers when reached and that do not overwrite their second source, running the IR keeps every guest register of the final association in the low half of its host register, for all register contents |
| Correctness.RunTracks | win64/user/src/mte/ir/tblock/asm/asm_instr_fix.c:38-92 | from any tables, for any flush-free run whose operands are all associated, spilled or not, and that does not overwrite its second source: when the ids of the associated guests differ in their low bytes, every one of them ends in the register that its id names, for all register contents |
| Correctness.DistinctExactly | win64/user/src/mte/ir/tblock/asm/asm_instr_fix.c:87-90 | in sound tables with at most 256 slots used, the low bytes differ if and only if no slot in use has the number of a host register in use |
| Correctness.WordKeepsExactly | win64/user/src/mte/ir/tblock/asm/asm_instr_fix.c:38-92 | from any tables, for any set of guests that agree before it: a supported word leaves them and its destination in agreement for all register contents if and only if none of them shares the destination's id and the word subtracts a register from itself, or reads sources of the set with rd not rt or rs; or some do share it and the word is an AND or OR that writes back, from sources of the set, what their register holds |
| Correctness.WordCorrectExactly | win64/user/src/mte/ir/tblock/asm/asm_instr_fix.c:38-92 | the same for all associated guests, spilled ones included: a word fails exactly by a source that was never associated, by overwriting its second source, or by writing to an id shared with another associated guest |
| Correctness.AnyCodeEffect | win64/user/src/mte/ir/tblock/asm/asm_instr_fix.c:67-196 | the code of any supported word writes one register, and this is the value, also for spilled and never associated operands |
| WordWitnesses.SpillOverwritesGuest | win64/user/src/mte/ir/tblock/asm/asm_instr_fix.c:87-90 | after `add $2, $2, $2` the word `add $30, $2, $2` gives guest 30 slot 0 and doubles guest 2, which sits on host register 0 |
| WordWitnesses.GuestOverwritesSpill | win64/user/src/mte/ir/tblock/asm/asm_instr_fix.c:87-90 | after `add $30, $4, $4` the word `add $2, $4, $4` puts guest 2 on host register 0 and overwrites the only copy of guest 30, whose slot is 0 |
| WordWitnesses.SpillKeepsValue | win64/user/src/mte/ir/tblock/asm/asm_instr_fix.c:87-90 | after `add $30, $4, $4` the word `add $5, $30, $30` reads the spilled guest 30 rightly, for all register contents |
| WordWitnesses.WalkEndsEarly | win64/user/src/mte/ir/tblock/asm/asm_instr_fix.c:38-64 | after `add $8, $8, $8` the word `add $8, $9, $9` leaves guest 9 unassociated and is translated wrongly |
| Fragments.PassBound | win64/user/src/mte/ir/tblock/tblock_pass.c:114-182 | after n words at most 2n entries are written, the buffer assertion never trips, and only a word that is not R-type stops the pass |
| Fragments.BlockFits | win64/user/src/mte/ir/tblock/tblock.h:77-78 | a whole block translated from an empty buffer runs to its end within 256 entries if and only if all its words are R-type, that is, below 2^26 |
| Fragments.OtherTypesStop | win64/user/src/mte/asm/mips/mips32_ir.c:31-37 | every word from 2^26 on stops the pass |
| Fragments.OtherFunctionsEmitNothing | win64/user/src/mte/ir/tblock/tblock_pass.c:126-132 | every R-type word whose low six bits are not 0x20, 0x22, 0x24 or 0x25 emits nothing and changes no table |
| Fragments.FourFunctionsEmit | win64/user/src/mte/ir/tblock/tblock_pass.c:134-155 | the others emit one or two entries, the last one with the group of add, sub, and, or |
| Fragments.BlockShape | win64/user/src/mte/ir/tblock/tblock.h:10-18 | 128 words in a big block and 32 in a small one, in sixteen fragments of eight or two words |
| Fragments.WordPlace | win64/user/src/mte/ir/tblock/tblock_pass.h:11-12 | word k of a block lies in fragment k / 8, or k / 2, which is below 16 |
| Fragments.FragmentOfWord | win64/user/src/mte/ir/tblock/tblock_pass.h:6-23 | word j of fragment b lies in fragment b by its byte position, and only the last word of a fragment crosses |
| Fragments.FragmentIsRun | win64/user/src/mte/ir/tblock/tblock_pass.c:114-182 | over a whole fragment the pass equals a flush-free run of its words followed by one flush with the fragment's bit |
| Witnesses.BufferBoundIsTight | win64/user/src/mte/ir/tblock/tblock_pass.c:152-155 | 128 words that each need two entries fill all 256: the bound is reached |
| Flushing.NamedGuests | win64/user/src/mte/asm/mips/mips32_ir.c:69-115 | the scan sees exactly rd, rs and rt of R-type words with a non-zero function field |
| Tblock.Block.LivenessScan | win64/user/src/mte/ir/tblock/tblock_pass.c:8-88 | bit b of an entry is set afterwards if and only if it was before, or b is below 8 and some word of fragment b names the register |
| Flushing.FlushFollowsScan | win64/user/src/mte/ir/tblock/asm/asm_instr_fix.c:218-242 | leaving fragment b below 8 keeps exactly the associations of guests named in b; leaving a later one keeps none |
| Flushing.FlushSoundExactly | win64/user/src/mte/ir/tblock/asm/asm_instr_fix.c:224-242 | a flush leaves every surviving association on an occupied host register if and only if each survivor's host number is also the number of a live guest |
| Flushing.FlushExactExactly | win64/user/src/mte/ir/tblock/asm/asm_instr_fix.c:224-242 | occupied and associated still coincide after a flush if and only if each associated guest and the guest with its host's number live or die together |
| Flushing.PassStaysSound | win64/user/src/mte/ir/tblock/tblock_pass.c:157-181 | while every crossing is safe in that sense, no two guests share a host register anywhere in a multi-fragment block |
| Witnesses.FlushCollision | win64/user/src/mte/ir/tblock/asm/asm_instr_fix.c:230-241 | a block of nine add words after which guests 8 and 9 are both on host register 10 |
| Tblock.Block.RawToIr | win64/user/src/mte/ir/tblock/tblock_pass.c:89-185 | the loop over guest bytes ends with the tables and IR of the word-by-word pass, or stops exactly where that one stops; with room for two entries a word it stops if and only if some word is not below 2^26 |
| Tblock.Block.TranslateNext | win64/user/src/mte/ir/tblock/tblock_pass.c:114-155 | one word through lifting, association, renaming and expansion, with both assertion stops |
| Tblock.Block.IrToRaw | win64/user/src/mte/ir/tblock/tblock_pass.c:187-282 | emits the concatenated bytes of all instructions, or stops if and only if one has a rejected operand order; the spill count is cleared first and the IR is kept |
| Tblock.EmitCode | win64/user/src/mte/ir/tblock/tblock_pass.c:245-269 | the emission loop writes the bytes of all instructions one behind the other, and stops if and only if some operand order is rejected |
| Tblock.Block.constructor | win64/user/src/mte/ir/tblock/tblock.c:6-33 | a new block: no code, nothing associated, nothing live |
| Emit.SumCalc | win64/user/src/mte/asm/intel/emitter/i64_emit.c:8-123 | the accumulator loop equals the fold over the described operands, with the exchanged extension bits |
| Emit.CompactInto | win64/user/src/mte/asm/intel/emitter/i64_emit.c:240-248 | outputs exactly the present slots in descending order, with the length equal to their number |
| Emit.Emit64 | win64/user/src/mte/asm/intel/emitter/i64_emit.c:127-251 | the buffer starts with the bytes the slot layout determines |
| Lower.OpcodeConv | win64/user/src/mte/asm/intel/i64_ir.c:70-128 | the loop converts the operands behind a repeated destination with the widths of the opcode's row |
| Lower.IrToRaw | win64/user/src/mte/asm/intel/i64_ir.c:5-67 | emits the instruction's bytes, or stops if and only if the operand order is rejected |
| Encoding.RegisterBytes | win64/user/src/mte/asm/intel/emitter/i64_rex.h:16-51 | a register pair is emitted as three bytes in which REX.R follows operand 0 and REX.B operand 1 whatever the form, while the ModRM fields follow the form |
| Encoding.EncodingExact | win64/user/src/mte/asm/intel/emitter/i64_modrm.h:21-61 | decoding by the Intel manual recovers the register pair always for the forms that load from r/m, and for the forms that store to it if and only if both registers are extended or neither is |
| Encoding.PairStreamExact | win64/user/src/mte/asm/intel/emitter/i64_emit.c:127-251 | in a byte stream mixing both forms, all register pairs are recovered if and only if each one stored to r/m is equally extended |
| Encoding.StreamDecodes | win64/user/src/mte/ir/tblock/tblock_pass.c:245-269 | a decoder consumes the bytes of any expanded code completely, and what it sees has the extension bits of each pair exchanged |
| Encoding.StreamRoundTrip | win64/user/src/mte/ir/tblock/tblock_pass.c:245-269 | it recovers all operations and operands if and only if every pair is equally extended |
| MemoryForms.StoreEncodedExactly | win64/user/src/mte/asm/intel/emitter/i64_emit.c:127-251 | `op [base + index * scale + disp], reg` is recovered by a decoder if and only if base, register and index are all extended or none is, the index is not register 4, a one-byte displacement fits, 32-bit addressing is not asked of MOV, the base is not one that means something else, and no addressing byte is zero |
| MemoryForms.LoadEncodedExactly | win64/user/src/mte/asm/intel/emitter/i64_emit.c:173-197 | `op reg, [base + index * scale + disp]` is recovered if and only if addressing is 64-bit, the displacement is zero, the base has its own encoding, no addressing byte is zero, and an index is the one that operand 0 happens to give |
| MemoryForms.SuiteStores | win64/user/src/mte/asm/intel/emitter/test_suite.c:85-117 | of four stores of the suite one is encoded rightly and three are not |
| MemoryForms.SuiteLoads | win64/user/src/mte/asm/intel/emitter/test_suite.c:36-60 | of three loads of the suite one is encoded rightly and two are not |
| EndToEnd.RunEndToEnd | win64/user/src/mte/ir/tblock/tblock_pass.c:114-155 | the bytes of a clean flush-free run decode to the intended machine code if and only if all pairs are equally extended, and running them then simulates the guest words for all register contents |
| WordEncoding.WordEncodedExactly | win64/user/src/mte/asm/intel/emitter/i64_emit.c:30-122 | running the decoded bytes of a clean word does what the word does, for all register contents, if and only if the registers of every pair in its code are equally extended |
| WordEncoding.MixedWordIsWrong | win64/user/src/mte/asm/intel/emitter/i64_rex.h:19-43 | as the first word of a block `add $8, $8, $4` is clean and its bytes compute something else |
| EndToEnd.FragmentEndToEnd | win64/user/src/mte/ir/tblock/tblock_pass.c:114-182 | the same for each fragment of a block as the pass with its flushes produces it, from agreement at its start |
| Blocks.BlockHoldsKnown | win64/user/src/mte/ir/tblock/tblock_pass.c:114-182 | from any tables, over any number of fragments with their flushes: while every word is right, in the sense of Correctness.WordKeepsExactly, for the guests with a known value, the code of the pass keeps all of these in the registers that their ids name, for all register contents; a guest becomes known when it is written and stays so while its association survives |
| Blocks.KnownFollowsScan | win64/user/src/mte/ir/tblock/asm/asm_instr_fix.c:218-242 | leaving a fragment below 8 keeps known exactly the known guests that it names; leaving a later one keeps none |
| Blocks.CleanBlockIsRight | win64/user/src/mte/ir/tblock/tblock_pass.c:114-182 | with sound tables and safe crossings, clean words that read known guests are right throughout the block |
| Blocks.BlockEndToEnd | win64/user/src/mte/ir/tblock/tblock_pass.c:89-185 | such a block, all fragments together, down to the bytes: when its register pairs are equally extended the bytes decode as a whole, and running them keeps every known guest in its host register |
| ValueLoss.LosesValue | win64/user/src/mte/ir/tblock/asm/asm_instr_fix.c:218-242 | a block whose two flushes are safe: its first fragment puts zero into guest 10, its second does not name it, and then `add $11, $10, $10` doubles a host register that nothing was put into |
| EndToEnd.TemporaryRunEndToEnd | win64/user/src/mte/ir/tblock/tblock_pass.c:114-155 | clean words over the guest temporaries are always compiled correctly down to the bytes |
| SyncMap.SigFirst | win64/user/src/mte/pipe/sync_map.c:61-139 | for any map length: signals and returns the least clear position of the interval and changes no other bit, and fails without a change if and only if there is none |
| SyncMap.UnsigFirst | win64/user/src/mte/pipe/sync_map.c:141-220 | clears and returns the least set position of the interval, except that a first word full from the start bit upward is passed over; no other bit changes |
| SyncMap.SetBit | win64/user/src/mte/pipe/sync_map.h:54-56 | adds exactly one flat position |
| SyncMap.ClearBit | win64/user/src/mte/pipe/sync_map.h:50-52 | removes exactly one flat position |
| Ranges.RangePopulate | win64/user/src/mte/pipe/bitpool.c:65-123 | the two loops fill the ranges as laid out from the top, or report refused percentages or the division by zero |
| Ranges.RoundingError | win64/user/src/mte/pipe/bitpool.c:97-101 | with positions in multiples of 64 rounding never meets a tie and errs by at most 12/25 |
| Ranges.TotalAtMostOneOver | win64/user/src/mte/pipe/bitpool.c:91-101 | four rounded sizes total at most one more than the positions |
| Ranges.TilesExactly | win64/user/src/mte/pipe/bitpool.c:91-101 | the ranges tile a top segment without overlap if and only if the sizes total at most the positions |
| Ranges.RangesCanWrap | win64/user/src/mte/pipe/bitpool.c:99 | accepted percentages whose lowest range starts at 2^32 - 1 |
| Ranges.DefaultTilesAll | win64/user/src/mte/pipe/bitpool.h:170-176 | the default percentages tile all positions, for every number of positions |
| Ranges.PerLowAtLeastOne | win64/user/src/mte/pipe/bitpool.c:117-120 | population divides by zero if and only if one of the first three accepted percentages is zero; otherwise all dispositions and sizes are at least one |
| Ranges.EachRange | win64/user/src/mte/pipe/bitpool.c:97-121 | range i has its own percentage of the positions, rounded half up, and its disposition is the number of times that size fits into the lowest one's |
| Ranges.DefaultRanges | win64/user/src/mte/pipe/bitpool.c:104-116 | the scheduler's 64 buckets: ranges of 6, 10, 16, 32 from 58, 48, 32, 0, with 5, 3, 2, 1 pops |
| Ranges.OffloadDividesByZero | win64/user/src/mte/pipe/bitpool.h:177-182 | the offload preset is accepted and then divides by zero, for every number of positions |
| Bitpool.Pool.PriorLoad | win64/user/src/mte/pipe/bitpool.c:125-192 | one turn of the blocking load: bitmap, bucket and counter change together, or nothing does and the reason is given |
| Bitpool.Pool.PriorUnload | win64/user/src/mte/pipe/bitpool.c:194-211 | the bit is cleared and one is taken from the counter of the index's range, nothing for an index out of bounds |
| Bitpool.Pool.PriorUnloadDisp | win64/user/src/mte/pipe/bitpool.c:213-259 | the range is chosen by presence and dispositions, its first bit found is cleared, and its index is reported in eight bits |
| Bitpool.Pool.IndexToPresence | win64/user/src/mte/pipe/bitpool.h:136-152 | the search loop returns the first range with room that starts at or below the index |
| Bitpool.Create | win64/user/src/mte/pipe/bitpool.c:5-48 | an empty pool over the populated ranges, or the reason for refusing |
| Bitpool.CreateSucceedsExactly | win64/user/src/mte/pipe/bitpool.c:12-36 | creation succeeds if and only if the count is a positive multiple of 64, the percentages total at most 100, and each of the first three lies between 1 and the last |
| Bitpool.CreateRefuses | win64/user/src/mte/pipe/bitpool.c:77-88 | which refusal it is otherwise |
| PriorityQueue.LaneFollowsRank | win64/user/src/mte/pipe/bitpool.h:116-127 | the eight priorities between the end markers go to ranges 3 to 0 in pairs, in the order in which they are declared |
| PriorityQueue.LanesAreOrdered | win64/user/src/mte/arch.h:41-52 | a more urgent priority never has a lower range, and exactly two share one |
| PriorityQueue.LoadDecides | win64/user/src/mte/pipe/bitpool.c:141-188 | for any queue and ranges: an end marker stops the program, a range without positions is invalid, and otherwise the lowest clear position below both ends is taken, unless there is none |
| PriorityQueue.UnloadDecides | win64/user/src/mte/pipe/bitpool.c:194-211 | for any queue: an index behind the buckets changes nothing, any other clears its bit and takes one from the count of its range alone |
| PriorityQueue.ChooseExactly | win64/user/src/mte/pipe/bitpool.c:226-240 | for any dispositions: the first range of the upper three that counts something and has pops left is chosen, or else the lowest, and exactly the counting ranges passed over get their pops back |
| QueueRuns.LaneOfExact | win64/user/src/mte/pipe/bitpool.h:136-152 | in any tiling every index is given the one range that contains it, and an index below all ranges none |
| QueueRuns.PushEffect | win64/user/src/mte/pipe/bitpool.c:141-188 | a push onto a counted queue blocks if and only if its range is full, and otherwise adds its payload to the queued ones once |
| QueueRuns.PopEffect | win64/user/src/mte/pipe/sched.c:178-224 | a cycle whose bucket eight bits can name delivers a payload of the most urgent range that is not empty and takes exactly it from the queued ones, or changes nothing |
| QueueRuns.RunConserves | win64/user/src/mte/pipe/bitpool.c:156-259 | up to 256 buckets, after every run each counter is the number of set bits of its range, pushed payloads are queued or delivered exactly once, and no disposition is used up |
| QueueRuns.StrictPriority | win64/user/src/mte/pipe/bitpool.c:231-240 | up to 256 buckets, after every run what a cycle delivers ranks at least as high, in the order of the priorities, as everything queued, up to the two priorities that share a range |
| WidePools.ConservesExactly | win64/user/src/mte/pipe/bitpool.h:233-237 | for any tiling ranges: every run conserves the payloads if and only if the pool has at most 256 buckets |
| Drain.PopSucceedsExactly | win64/user/src/mte/pipe/sync_map.c:169-213 | a cycle on the 64-bucket queue delivers if and only if something is counted and the real-priority range is not full |
| Drain.Drains | win64/user/src/mte/pipe/sched.c:65-69 | a reachable 64-bucket queue whose real-priority range is not full is emptied by exactly as many cycles as its counters total, and all that was pushed has then been delivered |
| Drain.StuckForever | win64/user/src/mte/pipe/sync_map.c:169-213 | once that range is full nothing is ever delivered again, whatever follows |
| Drain.UrgentBurstSticks | win64/user/src/mte/pipe/bitpool.c:231-253 | as many real-priority pushes as the range has buckets bring this about |
| Drain.DefaultQueueDrainsOrSticks | win64/user/src/mte/pipe/sched.c:62-69 | both for the scheduler's own queue after any run |
| Sched.SchedContext.Push | win64/user/src/mte/pipe/sched.c:113-134 | one turn of the push loads the payload at its own priority |
| Sched.SchedContext.Pop | win64/user/src/mte/pipe/sched.c:136-168 | the bucket's payload goes to bank 0 and the bucket is given back, unless an index is refused or bank 0 is still filled |
| Sched.SchedContext.Dispatch | win64/user/src/mte/pipe/sched.c:197-223 | with a vrow claimed, the queue and the dispositions end as one scheduler cycle leaves them; without a bucket the claim is undone |
| Sched.SchedContext.MainTurn | win64/user/src/mte/pipe/sched.c:170-227 | one turn claims the least free vrow and hands it the payload of one cycle, or leaves queue and vrow map as they were; states and banks of all other vrows stay |
| Vrow.VrowDesc.BankLoad | win64/user/src/mte/pipe/vrow.c:59-84 | a look at a filled bank changes nothing; an empty one gets the payload and its fill bit |
| Vrow.VrowDesc.BankSwap | win64/user/src/mte/pipe/vrow.c:86-110 | the payload is copied and both fill bits are toggled |
| Vrow.VrowDesc.MainTurn | win64/user/src/mte/pipe/vrow_thread.c:65-141 | one turn of the worker is its sixteen actions in order, or the flush after failed processing; other vrows' busy bits stay |
| Vrow.VrowDesc.constructor | win64/user/src/mte/pipe/vrow_thread.c:26-28 | only the active bit of bank 0 is set before the thread starts |
| Handshake.RunKeeps | win64/user/src/mte/pipe/vrow_thread.c:65-134 | in every interleaving the state byte is determined by the worker's position and the parity of its finished payloads, and the busy bit by position, fill bit and claim |
| Handover.ClearMeansIdle | win64/user/src/mte/pipe/vrow_thread.c:65-134 | a clear busy bit means an empty bank 0, an idle worker, and everything loaded finished |
| Handover.ClaimFlips | win64/user/src/mte/pipe/sched.c:184-195 | the bit seen clear is still clear when the claim sets it, and the claimed vrow is the scheduler's alone |
| Handover.LoadNeverWaits | win64/user/src/mte/pipe/vrow.c:70-81 | the load's first look finds bank 0 empty |
| Handover.ExactlyOnce | win64/user/src/mte/pipe/vrow_thread.c:65-134 | every loaded payload is finished once, in order and converted, with at most one on its way per vrow |
| Handover.StatesBetweenPayloads | win64/user/src/mte/pipe/vrow.h:114-125 | after k payloads the byte has A0 set, A2 and F2 set if and only if k is odd, and everything else clear: it is 2 or 50 |
| Handover.TogglesSetAndClear | win64/user/src/mte/pipe/vrow.c:97-107 | on bank 0's fill bit the scheduler's toggle always sets and the worker's always clears |
| Handover.Finishes | win64/user/src/mte/pipe/vrow_thread.c:65-134 | whatever the others do in between, a worker finishes a handed-over payload with exactly its remaining steps, seventeen from the look that finds it |
| Handover.StepsAreActs | win64/user/src/mte/pipe/vrow_thread.c:75-134 | the interleaved worker's steps, uninterrupted, are the actions of the loop turn |
| Producers.NeverUnderflows | win64/user/src/mte/pipe/bitpool.c:203-210 | in every interleaving of any length the counter that is decremented is the one of the chosen range and is at least one |
| Producers.ChosenIsCounted | win64/user/src/mte/pipe/bitpool.c:231-240 | the chosen range has a counter that is not zero, also range 3, whose counter is not looked at |
| Producers.CountsBalance | win64/user/src/mte/pipe/bitpool.c:156-211 | in every interleaving and range: set bits + bits being unloaded + collisions = counter + buckets still to be counted |
| Producers.QuietCountsExactly | win64/user/src/mte/pipe/bitpool.c:156-211 | between operations a counter equals its set bits if and only if the range has had no collision |
| Ledgers.QuietConservesExactly | win64/user/src/mte/pipe/bitpool.c:156-188 | between operations, for payloads that can be told apart: everything pushed is queued or delivered exactly once if and only if there was no collision and no bucket was taken before it was filled |
| Ledgers.QuietConserves | win64/user/src/mte/pipe/bitpool.c:156-259 | the same without the proviso, from right to left |
| Ledgers.QuietLosesExactly | win64/user/src/mte/pipe/bitpool.c:156-259 | between operations as many payloads are missing as there were collisions |
| Races.ProducersRace | win64/user/src/mte/pipe/sync_map.c:84-108 | in any range: two producers that find the same bit leave an empty queue whose counter says one, and the payload stored first is never delivered |
| Races.RefillRace | win64/user/src/mte/pipe/sched.c:154-165 | in any range: a producer that refills the bucket between the two clearings of its bit loses its payload, and the counter says one |
| Races.EarlyTake | win64/user/src/mte/pipe/bitpool.c:157-188 | in any range, with no collision and counters right, a payload is delivered twice and one pushed later never, because its bucket was taken before it was filled |
| Starvation.Starves | win64/user/src/mte/pipe/bitpool.c:231-253 | while a range counts something, has no set bit and nobody pushes into it, every payload delivered in any continuation is a more urgent one, or the first contents of a bucket |
| Starvation.CollisionIsPhantom | win64/user/src/mte/pipe/bitpool.c:231-253 | a range that is empty between operations is in that state if and only if it has had a collision |
| Starvation.CollisionStarves | win64/user/src/mte/pipe/bitpool.c:231-253 | so after one collision, from the moment the range is empty between operations, nothing of it or less urgent is delivered in any interleaving until somebody pushes into it |
| Starvation.RaceStarves | win64/user/src/mte/pipe/sync_map.c:84-108 | the race of two producers brings this about, in any range |
| Pipeline.Halves | win64/user/src/mte/pipe/sched.c:170-227 | every run of producers, scheduler and workers together is, seen from the queue, one of its runs, and seen from the vrows, one of theirs |
| Pipeline.TakesForItsVrow | win64/user/src/mte/pipe/sched.c:184-223 | whenever the scheduler has cleared the bit of a bucket it has claimed a vrow for it, and it gives the bucket back only when the vrow is loaded |
| Pipeline.EveryPayload | win64/user/src/mte/pipe/sched.c:154-223 | at any moment of any interleaving without a collision and an early take, every pushed payload is in a filled bucket, in the scheduler's hand or loaded into one vrow, exactly once, and each vrow has finished all it was given, in order, but for at most one |
| Pipeline.EveryPayloadExactly | win64/user/src/mte/pipe/sched.c:154-223 | between operations, for payloads that can be told apart: every pushed payload is queued or loaded into one vrow, exactly once, if and only if there was no collision and no early take |
| Pipeline.AllFinished | win64/user/src/mte/pipe/vrow_thread.c:65-134 | when such a pipeline has run dry, the workers have finished and converted every pushed payload exactly once |

## Left out

- Producers.Next: a producer finds any clear bit of its range, and the scheduler any set bit or none, where the code finds the first one of the words it loads; every interleaving of the code is among those covered.
- Producers.NeverUnderflows: speaks of pools of at most 256 buckets, beyond which even atomic pushes and cycles go wrong, and of systems with fewer than 4294967038 collisions in each range; collisions are never taken from a 32-bit counter, so it can wrap after more. The number of steps is not bounded.
- Producers.ChosenIsCounted: has the limits of Producers.NeverUnderflows.
- Producers.CountsBalance: has the limits of Producers.NeverUnderflows.
- Producers.QuietCountsExactly: has the limits of Producers.NeverUnderflows.
- Ledgers.QuietConserves: has the limits of Producers.NeverUnderflows.
- Ledgers.QuietLosesExactly: has the limits of Producers.NeverUnderflows.
- QueueRuns.StrictPriority: up to 256 buckets; beyond that the counters that decide the priority are themselves wrong after a cycle that names another bucket (WidePools.ConservesExactly).
- QueueRuns.PopEffect: speaks of cycles whose bucket eight bits can name, which is every cycle of a pool of at most 256 buckets.
- QueueRuns.RunConserves: up to 256 buckets, which WidePools.ConservesExactly shows to be the exact limit.
- Ledgers.QuietConservesExactly: has the limits of Producers.NeverUnderflows, and asks for payloads that differ from each other and from the first contents of the buckets, since with equal payloads one delivered twice can make up for one lost.
- Flushing.PassStaysSound: asks that 16-bit spill slot numbers do not run out; a block that starts with fewer than 65100 slots used up always meets that.
- Bitpool.Pool.PriorLoad: is one turn of a loop that spins while its range is full; `Full` stands for another turn. The same holds for `Waits` in Sched.SchedContext.Pop.
- Sched.SchedContext.MainTurn: describes a turn without interference; interleavings are the subject of the modules Producers and Handshake.
- Lower.IrToRaw: covers register operands of the sixteen host registers at 16, 32 and 64 bits; memory and immediate operands are stubs in the code, 8-bit moves have no opcode, and an id above 15, such as a large slot number, reads beyond the table of register operands.
- Lower.OpcodeConv: has the same domain as Lower.IrToRaw.
- Tblock.EmitCode: has the same domain as Lower.IrToRaw, for each instruction of the buffer.
- Tblock.Block.IrToRaw: has the same domain as Lower.IrToRaw, for each instruction of the buffer.
- Emit.Emit64: has the table rows of the ten 64-bit two-operand opcodes only, which are one byte long; immediate operands are not modelled.
- Starvation.Starves: speaks of pools of at most 256 buckets.
- Starvation.RaceStarves: speaks of pools of at most 256 buckets.
- Starvation.CollisionStarves: has the limits of Producers.NeverUnderflows up to the collision, and none on what follows.
- Starvation.CollisionIsPhantom: has the limits of Producers.NeverUnderflows.
- Pipeline.EveryPayload: has the limits of Producers.NeverUnderflows.
- Pipeline.EveryPayloadExactly: has the limits of Ledgers.QuietConservesExactly.
- Pipeline.AllFinished: has the limits of Producers.NeverUnderflows.
- Pipeline.TakesForItsVrow: has the limits of Producers.NeverUnderflows.
- Memory ordering: the interleavings are sequentially consistent. A copy of 64 bytes to or from a bucket or bank is one step; torn copies of a bucket that two threads use at once are not modelled.
- Closing, deletion and failed banks of scheduler and vrows, except for the exit in Vrow.VrowDesc.MainTurn; bank processing succeeds in Handshake, and what it computes is a parameter.
- I-type and J-type words, the overflow trap of ADD and the constant register 0: the first two stop the program in the code, the others are not in it.
- The driver `tblock_emit`, the spill prologue and epilogue (the count is cleared before they are considered), allocation, logging, performance counters, prefetching, the kernel driver and the disabled decoder.
- Null-pointer checks; memory starts out zeroed; `bitpool_presence_any` means that some counter is not zero. The ax library is not part of this model.
