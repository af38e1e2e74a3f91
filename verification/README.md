# CV32E40P: proofs about a hardened RISC-V core

A Dafny model of the units of the CV32E40P core whose correctness rests on invariants, and
proofs of what they promise. Every clock edge is a step. A combinational block is a function;
a module with registers is a class whose methods assign the registers as the clocked
processes do, proved against a step function, about which the theorems are proved for whole
runs.

| file | models |
|---|---|
| `Bits.dfy` | bit vectors, their values, the reversing shifter |
| `FindFirstOne.dfy` | the find-first-one tree |
| `Divider.dfy`, `AluDivision.dfy` | the serial divider at any width, and the ALU around it at 32 bits |
| `TripleAlu.dfy` | voters, the triplicated ALU in the loop through EX, faults and recovery |
| `LoadStore.dfy` | the load/store unit between EX, WB and a bus with byte memory |
| `Aligner.dfy` | the instruction aligner in the IF stage |
| `Prefetcher.dfy` | prefetch controller and bus interface around a queue of two words |
| `PrefetchBuffer.dfy` | the same around the circular buffer |
| `HwLoop.dfy` | the hardware loops' registers and the controller's arms for plain instructions and jumps |
| `LoopOrder.dfy` | the order in which a program with hardware loops is to be executed, and when the controller can follow it |
| `LoopStages.dfy` | IF and ID around loop registers, controller and aligner, and why they follow that order |
| `OneLoop.dfy`, `NestedLoops.dfy` | one loop, and two nested ones |
| `SetupOrder.dfy` | setting loops up in any order, the documentation's example, and a jump in between |
| `FetchPath.dfy` | prefetch buffer, aligner and loop logic together, from the bus to ID |
| `Runs.dfy` | runs of a step function and their invariants |
| `Hamming.dfy` | the extended Hamming encoder and decoder for every K |
| `Multiplier.dfy` | the four-step high multiplication, and multiply-subtract |
| `Fifo.dfy` | the circular buffer |
| `ReorderQueue.dfy` | the RVFI monitor's reorder queue |
| `ApuDispatcher.dfy` | the APU dispatcher's two slots |
| `VectorAlu.dfy` | partitioned adder, comparators, minimum, maximum, absolute value, clipping |

`dafny verify dfyconfig.toml` checks the whole project.

## What the surroundings supply

- Divider: EX keeps the operands of a stalled division (`AluDivision.Presented`). The population
  count is modelled as a sum of bits.
- Triplicated ALU: the core is any function from what it has seen to its next inputs; the
  purely combinational results of the ALU are any function of those inputs.
- Load/store unit: the ID/EX registers hold an access until EX is ready, then the second phase
  of a split one with the address advanced by four (rtl/cv32e40p_id_stage.sv:1492-1508); nothing
  but the unit itself stalls EX while it holds an access; the register offset is 0, as the decoder
  has it. The bus answers only granted transfers, in order, at the earliest one cycle after the
  grant; bytes without enable hold anything.
- Aligner: words come in order from the last branch target, which is what `PrefetchBuffer` proves
  and `FetchPath` uses; IF is halted while the controller does not request.
- Hardware loops: after a loop jump the loop's last word is still delivered, then the stream goes
  on at the start, which is what `PrefetchBuffer` proves and `FetchPath` uses. A program says what
  its k-th instruction does: write loop registers, jump, or nothing of interest here. Bodies have at
  least three instructions, all uncompressed, as docs/source/corev_hw_loop.rst asks; code outside
  them has instructions of both lengths. Nothing traps. While one loop alone is active the other's
  start and end hold anything, its counter 0.
- Progress: where a theorem says that something happens within a number of cycles, the bus never lets
  more than a stated number of cycles in a row pass without granting or answering while it has a
  request or an unanswered transfer, and ID is never unready for more than a stated number in a row.
- Multiplier: ID clears operand c, then feeds the result back while the unit asks for cycles.
- Reorder queue: each order number is sent once, from 1.

## Where the code and its description differ

- Hamming: the data index is incremented outside the loop over positions, so every data
  position carries data bit 0 and the data comes back exactly for K = 1. The error detection and
  correction of codewords is not affected.
- FIFO: the depth is described as arbitrary, but with flush-but-first only powers of two of at
  least two work (`Fifo.EveryRunIff`); the prefetch buffer uses depth 2.
- Divider: the fourth code of the state register has no exit, so recovery excludes it.
- Triplicated ALU: a recovered replica agrees in everything the core uses, but while a division
  opcode is presented to an idle replica its result port shows what its last division left
  (`TripleAlu.StaleResultIff`).
- Prefetcher: on its own it can withdraw an offer, namely while answers behind a loop's end are
  discarded (`Prefetcher.OfferWithdrawn`); with the loop logic around it a jump never leaves
  anything to discard, and offers stay (`FetchPath.LoopOfferStays`).
- Hardware loops: zero stall cycles for jumping back holds exactly unless a loop of three
  instructions has the other loop's stale end address behind its second one and is entered in
  DECODE (`OneLoop.CycleLostIff`); then the first jump back is made by a branch.
- Hardware loops: the documented order of writes, counter and end before start, takes the
  controller into DECODE_HWLOOP long before the body unless the old start address lies above or
  there is one iteration only (`SetupOrder.StateAtStart`). The loops are executed all the same
  (`NestedLoops.NestRunsExactly`), but that state has no arm for jumps
  (rtl/cv32e40p_controller.sv:694-828), so a jump among the instructions the example allows before
  the body is not taken (`SetupOrder.JumpAfterSetup`). Nor does that state look at taken branches;
  conditional branches are not part of this model.
- APU dispatcher: its assertion on returns admits one for a request that is not granted, which
  would output a destination that was never accepted.
- APU dispatcher: the comment on its stalls lets latency 1 follow latency 1; the code lets latency 1
  follow nothing outstanding (`ApuDispatcher.IssuedExactly`).
- Reorder queue: one pass does not look back, so an entry that becomes due in it waits for the
  next arrival exactly when it stands before its predecessor (`ReorderQueue.DueLeftIff`).

## Model

| member | source | states |
|---|---|---|
| `FindFirstOne.FirstOneCorrect` | rtl/cv32e40p_ff_one.sv:45-97 | For every length from two, power of two or not: `no_ones_o` exactly for a zero input, otherwise the index of the least set bit. |
| `FindFirstOne.FirstOneOfReverse` | rtl/cv32e40p_alu.sv:749-768 | On the reversed operand that index is the operand's number of leading zeros: it brackets the value between two powers of two. |
| `FindFirstOne.TreeNodeSummarises` | rtl/cv32e40p_ff_one.sv:59-90 | What every tree node says about the input bits below it, also where the last level runs past the input. |
| `Bits.ShiftLeftValue` | rtl/cv32e40p_alu.sv:254-314 | Reversing, shifting right and reversing back multiplies what stays in the word by a power of two. |
| `Divider.SerialDivider.Control` | rtl/cv32e40p_alu_div.sv:123-173 | Next state, valid output and register enables in each state, the unnamed fourth code included. |
| `Divider.SerialDivider.Clock` | rtl/cv32e40p_alu_div.sv:84-213 | One clock edge of all eight registers, and the valid output of the cycle it ends. |
| `Divider.DividePhase` | rtl/cv32e40p_alu_div.sv:115-160 | A division loaded with shift s is in DIVIDE in cycles 1 to s+1, the counter telling how many remain. |
| `Divider.ValidTiming` | rtl/cv32e40p_alu_div.sv:135-166 | OutVld stays low for cycles 0 to s+1, which is s+2 cycles. |
| `Divider.FinishReached` | rtl/cv32e40p_alu_div.sv:149-160 | Cycle s+2 is in FINISH. |
| `Divider.ResultHeld` | rtl/cv32e40p_alu_div.sv:162-191 | From then on no register moves and the output stays valid until OutRdy. |
| `Divider.CompareMagnitudes` | rtl/cv32e40p_alu_div.sv:105-109 | For divisors of either sign the unsigned compare with CompInv is the comparison of magnitudes, and the modular subtraction subtracts magnitudes. |
| `Divider.HalveEncoded` | rtl/cv32e40p_alu_div.sv:89-90 | Shifting CompInv in at the top halves the encoded divisor. |
| `Divider.AppendQuotientBit` | rtl/cv32e40p_alu_div.sv:92-97 | A bit entering the result register at the top becomes the low bit of the reversed reading. |
| `Divider.DivideStep` | rtl/cv32e40p_alu_div.sv:87-111 | One step keeps the loop invariant at any width: dividend = quotient so far x current divisor + remainder, remainder below twice the divisor, quotient bits reversed in the register. |
| `Divider.LoadStartsDivision` | rtl/cv32e40p_alu_div.sv:84-111 | Loading establishes that invariant, the dividend being negated when the signs differ. |
| `Divider.DivideCorrect` | rtl/cv32e40p_alu_div.sv:84-213 | Any width, any prepared operands, any stalls, any leftover registers: FINISH offers the quotient or remainder with the right sign. |
| `Divider.ZeroDivisorLoop` | rtl/cv32e40p_alu_div.sv:105-111 | Against zero every compare succeeds and subtracts nothing. |
| `Divider.DivideByZero` | rtl/cv32e40p_alu_div.sv:181-191 | Division by zero: all ones as quotient, the dividend as remainder. |
| `AluDivision.FrontEndPrepares` | rtl/cv32e40p_alu.sv:749-773 | For every non-zero divisor of either sign the ALU's leading-bit count and left shift give the divider a divisor that dominates the dividend, shifted by at most 31. |
| `AluDivision.PreparedPositive` | rtl/cv32e40p_alu.sv:891-904 | A non-negative divisor is shifted until its top bit is set, losing nothing. |
| `AluDivision.PreparedNegative` | rtl/cv32e40p_alu.sv:757-760 | A negative divisor is shifted until one sign bit is left, losing nothing. |
| `AluDivision.TruncationRounds` | rtl/cv32e40p_alu.sv:887-917 | The quotient and remainder the result is compared with are those of a division rounding towards zero. |
| `AluDivision.RoundingUnique` | rtl/cv32e40p_alu.sv:887-917 | That rule determines quotient and remainder. |
| `AluDivision.OverflowIsNatural` | rtl/cv32e40p_alu_div.sv:101-102 | The overflow row of the ISA's table is what wrapping the rounded result gives. |
| `AluDivision.DivisionMeetsIsa` | rtl/cv32e40p_alu.sv:749-917 | Main theorem. DIV, DIVU, REM, REMU on every operand pair, zero divisor and overflow included: not ready for exactly shift+2 cycles with shift at most 32, then the result of section 7.2 of the RISC-V Unprivileged ISA manual, held while EX stalls. |
| `AluDivision.DivisionsInTurn` | rtl/cv32e40p_alu_div.sv:135-166 | Main theorem. One division after another, other instructions in between, each presented until EX is ready, under every pattern of other stalls: each result taken is the ISA's for the division presented, the divider being idle again for the next. |
| `AluDivision.DivisionsOnTime` | rtl/cv32e40p_alu_div.sv:135-166 | Without other stalls each takes its shift and three cycles, no more: after the sum of these times exactly so many are through. |
| `TripleAlu.VoteExactly` | rtl/voter.sv:10-35 | For all three inputs, also when all differ: the fault flag is set exactly unless all agree, and only an agreement of the second and third overrules the first. |
| `TripleAlu.VoteMajority` | rtl/voter.sv:10-35 | Two agreeing inputs win whatever the third is; a fault is detected exactly when some input disagrees. |
| `TripleAlu.MaskedStep` | rtl/cv32e40p_alu_FT.sv:34-87 | With the other two replicas in the fault-free state, a corrupted one changes neither the voted outputs nor the next state. |
| `TripleAlu.SingleReplicaMasked` | rtl/cv32e40p_ex_stage.sv:474-475 | Main theorem. One fixed replica corrupted in any way at any cycles: for every behaviour of the core, the voted result, comparison and ready equal a fault-free ALU's at every cycle, through the loop from the voted ready back into EX. |
| `TripleAlu.QuietRecovers` | rtl/cv32e40p_alu_div.sv:115-173 | 65 cycles without a request and with OutRdy bring the divider to IDLE exactly if its state is not the fourth code. |
| `TripleAlu.RecoveredForGood` | rtl/cv32e40p_alu_div.sv:115-191 | After that a recovered replica shows the core the same as any other at every later cycle, divisions included. |
| `TripleAlu.AgreeStep` | rtl/cv32e40p_alu_div.sv:180-191 | Idle replicas with different leftovers become equal when they accept a division. |
| `TripleAlu.AgreeOutputs` | rtl/cv32e40p_alu_div.sv:135-166 | Agreeing replicas are ready together and show the same result whenever EX completes. |
| `TripleAlu.StaleResultIff` | rtl/cv32e40p_alu_div.sv:99-102 | The result port itself agrees for all agreeing replicas exactly without a division opcode: with one, idle replicas show what their last divisions left. |
| `TripleAlu.StaleResultWhileAccepting` | rtl/cv32e40p_alu_div.sv:99-102 | Among these cycles is the one that accepts a request; ready is low there. |
| `TripleAlu.MovingFaultsMasked` | rtl/cv32e40p_alu3.sv:34-106 | Faults may move between replicas when 65 quiet cycles lie between hits on different ones: the core never sees them. |
| `TripleAlu.MaskedDivisions` | rtl/cv32e40p_alu_FT.sv:34-87 | Main theorem, in the closed loop with one replica corrupted in any way: a division kept until EX is ready is seen not ready for exactly its time, and then with the quotient or remainder of operand b by operand a that section 7.2 of the RISC-V Unprivileged ISA manual gives. |
| `TripleAlu.MovingFaultsDivide` | rtl/cv32e40p_alu3.sv:34-106 | The same with faults moving between replicas. |
| `LoadStore.LoadStoreUnit.Clock` | rtl/cv32e40p_load_store_unit.sv:184-200 | One clock edge: counter, control registers and rdata_q, and the request, misaligned, ready and data outputs, for both values of PULP_OBI. |
| `LoadStore.LoadWord` | rtl/cv32e40p_load_store_unit.sv:222-229 | A word assembled from one or two bus words is the four bytes at its address, whatever the bytes not enabled. |
| `LoadStore.LoadHalf` | rtl/cv32e40p_load_store_unit.sv:231-259 | The same for halfwords at every offset and extension. |
| `LoadStore.LoadByte` | rtl/cv32e40p_load_store_unit.sv:261-288 | The same for bytes. |
| `LoadStore.StoreWord` | rtl/cv32e40p_load_store_unit.sv:119-180 | One or two bus writes with their byte enables and rotated data write exactly the four bytes at the address. |
| `LoadStore.StoreHalf` | rtl/cv32e40p_load_store_unit.sv:141-153 | The same for halfwords. |
| `LoadStore.StoreByte` | rtl/cv32e40p_load_store_unit.sv:155-163 | The same for bytes. |
| `LoadStore.ControlStep` | rtl/cv32e40p_load_store_unit.sv:384-403 | Every cycle keeps: the counter counts the outstanding transfers and is at most 2, the WB registers describe the oldest, and with two outstanding the younger is the one in EX. |
| `LoadStore.GrantDue` | rtl/cv32e40p_load_store_unit.sv:301-319 | A grant adds to what is delivered and outstanding exactly what its transfer is due, the first word of a split load being kept until the second arrives. |
| `LoadStore.InvStep` | rtl/cv32e40p_load_store_unit.sv:373-447 | Every cycle of every grant and response pattern keeps memory, grants and results those of the accesses finished so far, in order, plus the first half of the one in EX. |
| `LoadStore.EveryCycle` | rtl/cv32e40p_load_store_unit.sv:373-447 | Main theorem, at every cycle of every run: the control facts, each transfer accepted once and in order, and the results delivered so far those of byte accesses run one by one. |
| `LoadStore.DrainedIsInOrder` | rtl/cv32e40p_load_store_unit.sv:119-361 | Main theorem. Whenever the unit has drained, memory and all load results equal the accesses executed one by one on bytes, misaligned ones and those around the end of the address space included. |
| `LoadStore.FastBusNeverStalls` | rtl/cv32e40p_load_store_unit.sv:384-403 | A bus that grants at once and answers in the next cycle never stalls EX. |
| `LoadStore.ReadyExactly` | rtl/cv32e40p_load_store_unit.sv:384-403 | EX is ready exactly when nothing is outstanding or the response comes, and what it requests, if anything, has been granted or is granted now. |
| `LoadStore.RequestsExactly` | rtl/cv32e40p_load_store_unit.sv:365-376 | A transfer is requested exactly while at most one is outstanding, in the legacy bus mode only when that one is answered. |
| `LoadStore.LegacyOneByOne` | rtl/cv32e40p_load_store_unit.sv:371-376 | So in that mode at most one transfer is outstanding at every cycle of every run. |
| `LoadStore.AllCarriedOut` | rtl/cv32e40p_load_store_unit.sv:365-447 | Main theorem. Every list of accesses offered is carried out within a stated number of cycles, three or five times as many spans as accesses, a span being the longest the bus leaves a grant or answer owing; then memory and results are the list's, run one by one on bytes. |
| `LoadStore.NextValue` | rtl/cv32e40p_id_stage.sv:1492-1508 | The address of a second phase, advanced by four, is the byte address plus four modulo 2^32. |
| `LoadStore.LoadsReturnLatest` | rtl/cv32e40p_load_store_unit.sv:119-361 | Main theorem, at every cycle of every run: each load delivered by the unit returned, byte for byte, what the latest store before it wrote there; drained, so does memory. |
| `LoadStore.StoreThenLoad` | rtl/cv32e40p_load_store_unit.sv:119-316 | A run that ends in a store and a load of the same size at the same address: the unit delivers the stored bytes, extended. |
| `LoadStore.UntouchedByte` | rtl/cv32e40p_load_store_unit.sv:119-169 | A byte that no store of a run addresses is as before once the unit has drained. |
| `Aligner.InstructionAligner.Compute` | rtl/cv32e40p_aligner.sv:91-226 | All outputs of the combinational block in every state, with branch and loop target inputs. |
| `Aligner.InstructionAligner.Clock` | rtl/cv32e40p_aligner.sv:66-89 | One clock edge of the six registers. |
| `Aligner.WalkAddresses` | rtl/cv32e40p_aligner.sv:63-98 | The walk in 32-bit byte addresses: four bytes on where both low bits of the halfword are set, otherwise two, modulo 2^32. |
| `Aligner.BranchStartsWalk` | rtl/cv32e40p_aligner.sv:219-224 | A branch puts the aligner on its target's walk from any register contents. |
| `Aligner.AcceptStep` | rtl/cv32e40p_aligner.sv:103-216 | An accepting cycle takes the instruction at pc and moves on by its length, except that a 32-bit target in the upper half of a word is only stored first. |
| `Aligner.StallStep` | rtl/cv32e40p_if_stage.sv:254-255 | A cycle IF does not complete changes nothing. |
| `Aligner.SeenIsWalk` | rtl/cv32e40p_if_stage.sv:212-255 | Main theorem. For every code memory and every pattern of stalls, fetch gaps and branches, the instructions that entered ID since the last branch are the beginning of the walk from its target, by 2 or 4 bytes as section 1.5 of the RISC-V Unprivileged ISA manual encodes lengths. |
| `Aligner.TwoCyclesDeliver` | rtl/cv32e40p_aligner.sv:190-214 | With words available and no stall an instruction is delivered every cycle, but for one cycle after a branch to the upper half. |
| `Prefetcher.PrefetchController.Clock` | rtl/cv32e40p_prefetch_controller.sv:268-361 | One clock edge of the controller's registers. |
| `Prefetcher.OfferedIsNext` | rtl/cv32e40p_prefetch_controller.sv:117-123 | A word offered is the next word of the promised stream. |
| `Prefetcher.JumpStep` | rtl/cv32e40p_prefetch_controller.sv:246-262 | A loop jump with the loop's last word held or arriving keeps that word and drops everything else. |
| `Prefetcher.JumpWaitStep` | rtl/cv32e40p_prefetch_controller.sv:264-300 | A loop jump before the last word arrives keeps its transaction wanted and drops the others after its answer. |
| `Prefetcher.InvStep` | rtl/cv32e40p_prefetch_controller.sv:117-361 | Every cycle keeps FIFO, wanted answers and the next transaction on the promised stream. |
| `Prefetcher.StreamDelivered` | rtl/cv32e40p_prefetch_buffer.sv:84-175 | Main theorem. Along every run of grants, answers, branches and loop jumps: each word offered is the stream's next, at most two transactions are unanswered, and FIFO and wanted answers hold at most two words. |
| `Prefetcher.WordsInOrder` | rtl/cv32e40p_prefetch_buffer.sv:84-175 | Until the next branch or jump the words taken are consecutive, none skipped or repeated. |
| `Prefetcher.OfferIsStable` | rtl/cv32e40p_prefetch_controller.sv:205-212 | A word not taken stays in front; it is offered again at once exactly unless its answer starts a delayed drop of others. |
| `Prefetcher.OfferWithdrawn` | rtl/cv32e40p_prefetch_controller.sv:264-300 | A run from reset in which that happens: two words requested, a loop jump before the first arrives, that word not taken. |
| `Prefetcher.OfferStays` | rtl/cv32e40p_prefetch_controller.sv:205-262 | When each loop jump finds exactly one word ahead, there is never anything to drop and an offer always stays. |
| `Prefetcher.JumpReadyAfterTake` | rtl/cv32e40p_prefetch_controller.sv:140-153 | After a word is taken, the next one and no other is held or requested: what a loop jump needs. |
| `Prefetcher.LegacyOneByOne` | rtl/cv32e40p_prefetch_controller.sv:151-157 | In the legacy bus mode at most one transaction is unanswered at every cycle of every run. |
| `Prefetcher.WordComes` | rtl/cv32e40p_prefetch_controller.sv:140-198 | Main theorem. From every state the invariant allows, answers to drop and a branch target still to be requested included, the stream's next word is offered within eight spans, a span being the longest the bus leaves a grant or answer owing, and stays. |
| `Prefetcher.FastBusOffers` | rtl/cv32e40p_prefetch_controller.sv:117-157 | On a bus that grants at once and answers in the next cycle a word is offered in every cycle without a branch, whatever branches, jumps and takes came before. |
| `PrefetchBuffer.TickRefines` | rtl/cv32e40p_prefetch_buffer.sv:84-175 | With the circular buffer in place of the queue, one cycle of controller, buffer and bus interface is one cycle of the model with a queue. |
| `PrefetchBuffer.OutputsAgree` | rtl/cv32e40p_prefetch_buffer.sv:115-144 | So are its count, its valid signal and the word it offers. |
| `PrefetchBuffer.BufferedStream` | rtl/cv32e40p_prefetch_buffer.sv:84-175 | Main theorem, for the circular buffer: along every run from reset each word offered is the stream's next and at most two transactions are unanswered. |
| `PrefetchBuffer.WordComes` | rtl/cv32e40p_prefetch_buffer.sv:84-175 | With the circular buffer, too, the next word is offered within eight spans. |
| `HwLoop.HwloopRegs.Clock` | rtl/cv32e40p_hwloop_regs.sv:65-108 | One clock edge of the start, end and counter registers of any number of loops, with guarded decrement. |
| `HwLoop.LoopController.Compute` | rtl/cv32e40p_controller.sv:544-826 | The default arms of DECODE and DECODE_HWLOOP and the arm for jumps, which only DECODE has: next state, branch, decrements and target, in their assignment order. |
| `HwLoop.LoopController.Clock` | rtl/cv32e40p_controller.sv:1265-1275 | One clock edge of state, jump_done_q and the pulse register. |
| `LoopOrder.OrderIgnoresState` | rtl/cv32e40p_hwloop_regs.sv:91-108 | The promised order, in which the last instruction of an iteration that is not the last goes back to the start and counts down, depends on pc and loop registers alone, not on the controller. |
| `LoopOrder.CalmWalk` | rtl/cv32e40p_controller.sv:608-649 | Plain instructions of either length away from the ends of iterations, whatever loop registers they write and whichever state they meet, are executed one after the other, and the controller can follow them. |
| `LoopStages.LockStep` | rtl/cv32e40p_aligner.sv:75-115 | With a loop target pending or not, code of either length and branches to either half, the aligner stands at the prefetcher's next word, and the cycle enters, redirects or stores exactly as stated. |
| `LoopStages.HeldControl` | rtl/cv32e40p_controller.sv:608-649 | In every cycle an instruction spends in ID the controller branches, announces and counts as the order wants: a branch in its first cycle in DECODE only, the announcement until it leaves, the count-down when it leaves. |
| `LoopStages.LeaveStep` | rtl/cv32e40p_controller.sv:802-826 | When an instruction leaves, controller, loop registers, aligner and prefetcher stand where the order goes on, whether it is plain, a jump, or goes back announced or by a branch. |
| `LoopStages.OnOrderStep` | rtl/cv32e40p_controller.sv:608-826 | Every cycle of every stall and fetch gap keeps: what left ID is the order, the loop registers are the order's, and the stages stand at its next instruction. |
| `LoopStages.RunsInOrder` | rtl/cv32e40p_controller.sv:1266-1290 | Main theorem, for both loop register sets, code of both instruction lengths, writes of loop registers anywhere and jumps met in DECODE: as far as every step of the order meets the local conditions `LoopOrder.Sound`, what leaves ID is that order and the loop registers are its. |
| `LoopStages.NoJumpWhilePending` | rtl/cv32e40p_aligner.sv:242-251 | A loop jump never reaches the aligner while it holds an earlier one: the assertion of the source holds at every cycle of such a run. |
| `LoopStages.JumpIgnored` | rtl/cv32e40p_controller.sv:694-828 | In DECODE_HWLOOP a cycle with a jump in ID is the same as with an instruction that does nothing. |
| `LoopStages.JumpNotTaken` | rtl/cv32e40p_controller.sv:694-828 | So a jump that meets DECODE_HWLOOP is not taken in any run: what leaves ID is the order of the program without it. |
| `LoopStages.ZeroOverhead` | docs/source/corev_hw_loop.rst:25-29 | With a word available and no stall ID is filled again at once with the order's next instruction, the jump back included, exactly unless the controller branches or the aligner only stores the first half of a branch target. |
| `LoopStages.CycleLostIff` | docs/source/corev_hw_loop.rst:25-29 | Some pattern of gaps and stalls loses a cycle exactly if the order meets DECODE at an instruction that goes back. |
| `OneLoop.LoopLeads` | rtl/cv32e40p_hwloop_regs.sv:91-108 | From the start of a loop of at least three instructions, in either state of the controller, for either register set and any start and end left in the other, the order is the body exactly as often as the counter says, then the end address with the counter at 0. |
| `OneLoop.LoopRunsExactly` | rtl/cv32e40p_controller.sv:1266-1290 | Main theorem. Under every pattern of stalls and fetch gaps, in either state, with ID empty or not, whatever plain instructions set the loop up and in which order, compressed code outside the body included: what leaves ID is the code up to the body, the body exactly count times and then the code from the end address; from the start on the counter is 0 exactly when the last iteration is over. |
| `OneLoop.ApproachIsReady` | rtl/cv32e40p_controller.sv:608-649 | With the registers written beforehand it is enough that the code comes to the start and stays outside the body until then, also past the last word of memory, where pc + 4 wraps. |
| `OneLoop.CycleLostIff` | docs/source/corev_hw_loop.rst:25-29 | Some run loses a cycle exactly if the loop has more than one iteration and exactly three instructions, the other loop's stale end address follows its second one, and the controller comes to its start in DECODE. |
| `OneLoop.LostInTheThird` | rtl/cv32e40p_controller.sv:608-640 | Such a run: no stall, a word in every cycle, ID empty after the third instruction. |
| `NestedLoops.NestStep` | rtl/cv32e40p_controller.sv:608-826 | For every nesting the documentation allows, every step of the order, the outer body's writes of the inner counter included, is one the controller can follow, and no iteration with others behind it is met in DECODE but at a start. |
| `NestedLoops.NestRunsInOrder` | docs/source/corev_hw_loop.rst:35-70 | Main theorem. Entered from anywhere outside or where a body begins, in either state, whatever the outer body writes to the inner counter and when, under every pattern of stalls and fetch gaps: what leaves ID is the two loops' promised order and both counters are those of that order. |
| `NestedLoops.CountsOneAtOnce` | rtl/cv32e40p_hwloop_regs.sv:114-115 | Never more than one counter counts down: the assertion of the source holds. |
| `NestedLoops.NoCycleLost` | docs/source/corev_hw_loop.rst:25-29 | Neither of two nested loops ever costs a cycle, in any run. |
| `NestedLoops.RestIsPasses` | docs/source/corev_hw_loop.rst:98-135 | With the inner counter set again behind the inner loop, the order from the outer start is the outer passes, each with the full number of inner iterations. |
| `NestedLoops.NestRunsExactly` | docs/source/corev_hw_loop.rst:98-135 | Main theorem. Both loops set up by any plain instructions in any order, in either state: what leaves ID is the code up to the outer loop, exactly those passes, and then, as far as it stays behind the nest, the code from the outer end, the outer counter at 0 and the inner one set again. |
| `SetupOrder.AnyLoopSetup` | rtl/cv32e40p_hwloop_regs.sv:65-108 | What a loop's theorem asks of the instructions before it, as something to check beforehand: any writes of count, end and start, in any order, that leave end addresses behind the start and the other loop inactive. |
| `SetupOrder.AnySetup` | rtl/cv32e40p_hwloop_regs.sv:65-108 | The same for a nest: any writes of both register sets, in any order, that leave end addresses behind the outer start. |
| `SetupOrder.DocumentedIsReady` | docs/source/corev_hw_loop.rst:98-135 | The documented order of writes, for any nest, counts and registers left over but end addresses inside or just before the nest: the nest is then executed exactly. |
| `SetupOrder.StateAtStart` | rtl/cv32e40p_controller.sv:610-617 | From cleared registers that order brings the controller to the nest in DECODE_HWLOOP, entered before any body, exactly if there is more than one outer iteration and the outer start register held the address of the word that writes it, or a lower one. |
| `SetupOrder.MatrixAddition` | docs/source/corev_hw_loop.rst:98-135 | The matrix addition itself, from cleared registers, meets the conditions and is entered in DECODE_HWLOOP. |
| `SetupOrder.JumpAfterSetup` | rtl/cv32e40p_controller.sv:694-828 | A jump behind the outer loop's three writes is taken, in every run, exactly unless there is more than one iteration and the start register held the address of the word that writes it, or a lower one; then the instruction behind the jump follows instead. |
| `FetchPath.TickRefines` | rtl/cv32e40p_if_stage.sv:212-255 | Prefetch buffer and aligner together move as the aligner does on words in order. |
| `FetchPath.BusToWalk` | rtl/cv32e40p_if_stage.sv:178-255 | Main theorem. From the bus to ID: for every code memory and every pattern of grants, answers, stalls and branches, what entered ID since the last branch is the beginning of the walk from its target. |
| `FetchPath.WalkProceeds` | rtl/cv32e40p_if_stage.sv:178-255 | Main theorem. From the cycle of a branch on, whatever is still to be dropped or granted, the k-th instruction of the walk has entered ID after a stated number of cycles, linear in k, in the longest the bus leaves something owing and in the longest ID is not ready. |
| `FetchPath.JustEntered` | rtl/cv32e40p_controller.sv:802-826 | A loop jump is announced in the cycle after the instruction before the one that goes back was fetched, from a stream without a pending jump. |
| `FetchPath.FedStep` | rtl/cv32e40p_prefetch_controller.sv:264-300 | So a jump always finds the loop's last word, and no other, held or requested. |
| `FetchPath.LoopOfferStays` | rtl/cv32e40p_prefetch_controller.sv:205-212 | Therefore, with the loop logic around it, the prefetch buffer never withdraws an offer unless the controller branches. |
| `FetchPath.BootEnters` | rtl/cv32e40p_controller.sv:343-395 | From reset, with the branch of BOOT_SET, an order begins at the boot address, of either half of a word. |
| `FetchPath.JumpEnters` | rtl/cv32e40p_controller.sv:543-554 | A jump met in DECODE begins one at its target, whatever was fetched ahead or is still to be answered. |
| `FetchPath.BusToOrder` | rtl/cv32e40p_if_stage.sv:178-255 | Main theorem. From the bus, through circular buffer, aligner and loop logic, to retirement: under every pattern of grants, answers and stalls, as far as the order is sound, what leaves ID is the promised order and the registers of both loops are its. |
| `FetchPath.BusToLoops` | rtl/cv32e40p_if_stage.sv:178-255 | One loop from the bus, however it was set up: the code up to the body, the body exactly count times and then the code from the end address. |
| `FetchPath.BusToNest` | docs/source/corev_hw_loop.rst:35-70 | Two nested loops from the bus, every entry and every write of the inner counter outside its body: the promised order, and both counters its. |
| `FetchPath.BusToPasses` | docs/source/corev_hw_loop.rst:98-135 | Two nested loops from the bus, set up in any order: exactly those passes, and then the code behind. |
| `FetchPath.BusToMatrix` | docs/source/corev_hw_loop.rst:98-135 | The documentation's matrix addition from the bus, its six writes from cleared registers included: ten passes of ten inner iterations. |
| `FetchPath.ResetToMatrix` | docs/source/corev_hw_loop.rst:98-135 | Main theorem. The same from reset, booting at its first write: nothing is assumed but the code and a bus that answers what it granted. |
| `FetchPath.OrderProceeds` | rtl/cv32e40p_if_stage.sv:178-255 | Main theorem. As far as the order is sound its m-th instruction has left ID after so many spans, and all before are its: the loop logic never gets stuck. |
| `FetchPath.LoopFinishes` | rtl/cv32e40p_hwloop_regs.sv:91-108 | A loop comes to its end within the spans of its instructions, the body executed as often as the counter said and the counter 0. |
| `FetchPath.PassesFinish` | docs/source/corev_hw_loop.rst:98-135 | So do two nested ones. |
| `FetchPath.MatrixFinishes` | docs/source/corev_hw_loop.rst:98-135 | Main theorem. The matrix addition from reset is over after the spans of its 326 instructions. |
| `FetchPath.OneEachCycle` | docs/source/corev_hw_loop.rst:25-29 | On a bus that grants at once and answers in the next cycle, without stalls, one instruction leaves ID in every cycle, the jumps back included, as long as the order meets no branch. |
| `FetchPath.PassesAtFullSpeed` | docs/source/corev_hw_loop.rst:25-29 | That is so for two nested loops of the documented form and for what sets them up: zero stall cycles, from the bus. |
| `FetchPath.MatrixAtFullSpeed` | docs/source/corev_hw_loop.rst:98-135 | The matrix addition from reset takes 326 consecutive cycles for its 326 instructions. |
| `Hamming.CalculateM` | rtl/cv32e40p_hamming_encoder.sv:22-32 | The least positive number of check bits. |
| `Hamming.CalculateChecks` | rtl/cv32e40p_hamming_decoder.sv:44-54 | Both calculate_p and calculate_syndrome: each check is the parity of the positions whose index has its bit. |
| `Hamming.StoreDbits` | rtl/cv32e40p_hamming_encoder.sv:35-52 | Where the data index is incremented after the loop, every data position receives data bit 0. |
| `Hamming.StoreP` | rtl/cv32e40p_hamming_encoder.sv:70-83 | Check bits go to the power-of-two positions. |
| `Hamming.CorrectCodeword` | rtl/cv32e40p_hamming_decoder.sv:57-71 | In place: the bit the syndrome names is inverted, a syndrome outside the word changes nothing. |
| `Hamming.EncoderIsValid` | rtl/cv32e40p_hamming_encoder.sv:92-104 | Whatever the data, all checks and the extended parity of the encoder's word are zero. |
| `Hamming.EncoderCounts` | rtl/cv32e40p_hamming_encoder.sv:55-104 | Counted: the encoder's word has an even number of ones, altogether and among the positions whose index has any one bit. |
| `Hamming.NoError` | rtl/cv32e40p_hamming_decoder.sv:117-167 | An undisturbed word raises no flag and keeps bits 1 to n. |
| `Hamming.SingleErrorCorrected` | rtl/cv32e40p_hamming_decoder.sv:123-167 | Main theorem, for every K and both layouts: a flipped bit in 1 to n gives its position as syndrome, only the single-error flag (and the fixed flag exactly for data positions), and is corrected; a flipped extended parity bit raises no flag. |
| `Hamming.DoubleErrorDetected` | rtl/cv32e40p_hamming_decoder.sv:123-167 | Any two flipped bits set the double-error flag and no other. |
| `Hamming.BitTrick` | rtl/cv32e40p_hamming_decoder.sv:89-99 | x & (x-1) is zero exactly for powers of two. |
| `Hamming.ExtractQ` | rtl/cv32e40p_hamming_decoder.sv:74-86 | As written, every data position is extracted to bit 0 and the last one stays. |
| `Hamming.CodewordsAgree` | rtl/cv32e40p_hamming_encoder.sv:45-51 | Two data words have the same codeword exactly when their bits 0 agree. |
| `Hamming.ReturnedIff` | rtl/cv32e40p_hamming_decoder.sv:79-85 | Encoding and decoding a word without errors returns it exactly if its bits from 1 on are those the extractor leaves unassigned. |
| `Hamming.DataReturnsIffOneBit` | rtl/cv32e40p_hamming_decoder.sv:79-85 | So, whatever those hold, all data come back exactly for K = 1. |
| `Multiplier.MultiplierUnit.Compute` | rtl/cv32e40p_mult.sv:128-197 | The control signals of each of the five states. |
| `Multiplier.MultiplierUnit.Clock` | rtl/cv32e40p_mult.sv:199-210 | One clock edge of state and carry, with the result of the cycle. |
| `Multiplier.SumsFit` | rtl/cv32e40p_mult.sv:108-125 | The step sums fit: no carry after STEP0, 33 bits signed after STEP1, 34 after STEP2. |
| `Multiplier.Step1Result` | rtl/cv32e40p_mult.sv:161-173 | STEP1 leaves the sum's low word in c and its sign in the carry. |
| `Multiplier.Step2Result` | rtl/cv32e40p_mult.sv:175-188 | Carry and c give STEP2 the exact sum back; the shift keeps the sign. |
| `Multiplier.HighProductOfSums` | rtl/cv32e40p_mult.sv:108-196 | The shifted partial products add up to the upper half of the 64-bit product, for all signednesses. |
| `Multiplier.CarryOnlyInStep2` | rtl/cv32e40p_mult.sv:199-210 | In every run the carry is set only in STEP2. |
| `Multiplier.FourCyclesBusy` | rtl/cv32e40p_mult.sv:140-188 | Not ready for the first four cycles; active, with the result going back into operand c, in all but the first. |
| `Multiplier.HighMultiplication` | rtl/cv32e40p_mult.sv:98-209 | Main theorem. MULH, MULHSU, MULHU: after four cycles ready with floor(a*b / 2^32) mod 2^32 (section 7.1 of the RISC-V Unprivileged ISA manual), held while EX stalls, then idle with the carry clear. |
| `Multiplier.MultiplySubtract` | rtl/cv32e40p_mult.sv:217-232 | Complementing a and adding b subtracts the product; ready at once. |
| `Multiplier.ShortMultiplication` | rtl/cv32e40p_mult.sv:87-125 | Both short multiplications: c plus the product of the selected halfwords, plus half of the last bit shifted out for the rounding one, its low word shifted right by its sign or with zeros; ready at once. |
| `Fifo.CircularBuffer.Compute` | rtl/cv32e40p_fifo.sv:65-108 | Pointers and count without a flush. |
| `Fifo.CircularBuffer.Clock` | rtl/cv32e40p_fifo.sv:111-147 | One clock edge of buffer, pointers and count, with flush and flush-but-first. |
| `Fifo.StepRefines` | rtl/cv32e40p_fifo.sv:65-147 | One cycle is one cycle of the abstract queue, for every depth and both fall-through modes. |
| `Fifo.OutputsRefine` | rtl/cv32e40p_fifo.sv:51-71 | Count, full, empty and head are the queue's. |
| `Fifo.FlushButFirstIff` | rtl/cv32e40p_fifo.sv:125-129 | Flush-but-first leaves a working buffer exactly if it is empty, or the read pointer is not at the last slot, or the depth is a power of two of at least two. |
| `Fifo.FlushNeedsPowerOfTwo` | rtl/cv32e40p_fifo.sv:125-129 | It does so in every state exactly for those depths. |
| `Fifo.RunRefines` | rtl/cv32e40p_fifo.sv:53-138 | Main theorem: along every run the buffer is the queue. |
| `Fifo.PowerOfTwoDepth` | rtl/cv32e40p_fifo.sv:53-138 | For those depths without any condition on the inputs. |
| `Fifo.LosingShows` | rtl/cv32e40p_fifo.sv:125-129 | For every other depth a run from reset: fill the buffer, read down to the last slot, flush-but-first, read it, push; the word pushed is lost and the first one ever written comes back. |
| `Fifo.EveryRunIff` | rtl/cv32e40p_fifo.sv:53-138 | So the buffer is the queue along all runs from reset exactly for powers of two of at least two. |
| `ReorderQueue.Monitor.EmptyFifo` | bhv/cv32e40p_rvfi.sv:647-669 | One pass over the queue; too long a queue is fatal and leaves it. |
| `ReorderQueue.Monitor.SendRvfi` | bhv/cv32e40p_rvfi.sv:674-686 | An arrival is handed on or queued, then one pass. |
| `ReorderQueue.PassConserves` | bhv/cv32e40p_rvfi.sv:653-667 | A pass loses and duplicates nothing. |
| `ReorderQueue.PassEmitsDue` | bhv/cv32e40p_rvfi.sv:658-662 | A pass hands something on exactly when the entry due is waiting. |
| `ReorderQueue.PassEmptiesIff` | bhv/cv32e40p_rvfi.sv:653-667 | A pass empties the queue exactly when it holds the numbers due in their order. |
| `ReorderQueue.SentInOrder` | bhv/cv32e40p_rvfi.sv:647-686 | Main theorem: for every arrival order the entries handed on are numbered 1, 2, 3, ..., and with those waiting they are the arrivals. |
| `ReorderQueue.HandedOnIff` | bhv/cv32e40p_rvfi.sv:653-667 | A pass hands on exactly the entry due and those whose predecessor stands before them and is handed on. |
| `ReorderQueue.DueLeftIff` | bhv/cv32e40p_rvfi.sv:653-667 | A pass leaves an entry that has become due exactly when it stands before its predecessor and that one is handed on. |
| `ReorderQueue.DueLeftAfterIff` | bhv/cv32e40p_rvfi.sv:647-686 | For every arrival order the last arrival leaves the due entry waiting exactly in that case, or over the limit when it waited already. |
| `ReorderQueue.DueEntryCanWait` | bhv/cv32e40p_rvfi.sv:653-667 | The shortest such run: 3, 2 and 1 arrive, 3 is due and waits. |
| `ApuDispatcher.Dispatcher.Clock` | rtl/cv32e40p_apu_disp.sv:87-143 | One clock edge of both slots and the latency register, with request and write address. |
| `ApuDispatcher.StepRefines` | rtl/cv32e40p_apu_disp.sv:93-143 | One cycle is one cycle of a queue of at most two with same-cycle bypass; waiting implies in flight. |
| `ApuDispatcher.ReturnedOnceInOrder` | rtl/cv32e40p_apu_disp.sv:201-221 | Main theorem: along every run each accepted destination is output once, oldest first. |
| `ApuDispatcher.UngrantedReturn` | rtl/cv32e40p_apu_disp.sv:235-239 | Exactly a return for a request that is not granted outputs a destination that was never accepted; the module's assertion lets it pass. |
| `ApuDispatcher.UngrantedRun` | rtl/cv32e40p_apu_disp.sv:235-239 | It can be the first cycle after reset. |
| `ApuDispatcher.DependencyExact` | rtl/cv32e40p_apu_disp.sv:163-191 | A read dependency is signalled exactly when ID decodes and uses a destination that is requested or outstanding and does not return in this cycle. |
| `ApuDispatcher.IssuedExactly` | rtl/cv32e40p_apu_disp.sv:199-206 | When a request is issued, in every run: with nothing outstanding always, with two never, behind one exactly if its latency is 0, or 2 and the last request's was not 3. |
| `VectorAlu.AdditionIsRipple` | rtl/cv32e40p_alu.sv:115-169 | The 36-bit addition with separators is the four byte additions with the carries the separators pass on. |
| `VectorAlu.LanesAddOrSubtract` | rtl/cv32e40p_alu.sv:102-169 | Main theorem: in each mode the one addition adds or subtracts each lane modulo its width. |
| `VectorAlu.ComparisonLanes` | rtl/cv32e40p_alu.sv:348-428 | Every comparison is made lane by lane, between the numbers its own signed or unsigned variant reads. |
| `VectorAlu.MinMaxLanes` | rtl/cv32e40p_alu.sv:436-446 | Each lane of MIN and MAX is the smaller or greater number. |
| `VectorAlu.AbsLanes` | rtl/cv32e40p_alu.sv:436-446 | ABS with zero as operand b is each lane's magnitude. |
| `VectorAlu.SignBitOfSum` | rtl/cv32e40p_alu.sv:163-164 | Bit 36 of the adder is the sign of a + b + 1. |
| `VectorAlu.ClipClamps` | rtl/cv32e40p_alu.sv:448-470 | For every non-negative b in 32-bit mode CLIP clamps between -b-1 and b, CLIPU between 0 and b. |

## Left out

- Conditional branches, jumps through a register, traps and debug around hardware loops: the instructions modelled are plain ones, writes of loop registers, and jumps to a fixed target.
- Loops of one or two instructions: the documentation excludes them and the theorem does.
- Register offset of the load/store unit other than 0, atomics, load events and PMP errors.
- LSU post-increment address selection: an access carries its final address.
- Hamming with output or input registers (LATENCY above 0).
- A data round trip of the Hamming code with the index incremented per data position: the code does not do that.
- Dot products and complex multiplication: arithmetic without a protocol. `cv32e40p_mult3` leaves an input open and is not part of this model.
- The adder's operand swap for complex subtraction (`is_subrot_i`).
- The ALU's shifts beyond the division path, bit manipulation, shuffles and the rounding of additions.
- Overflow of the RVFI order numbers, of the monitor's 32-bit counter, and the tracer itself.
- The APU dispatcher's write dependencies, which repeat the read dependencies, its performance signals, and the reason for its stalls by latency.
- Compressed decoder, interrupt priority, CSR file and their voters: case tables and copies.
- The rest of the controller: sleep, exceptions, debug entry, interrupts.
- Clock gating, reset synchronisation, X-propagation and timing.
- FIFO of depth 0: the module asserts it away.
