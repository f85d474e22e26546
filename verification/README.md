# AP040 pipe: a verified model

AP040_PIPE is a pipelined MC68040-compatible core written in Verilog and SystemVerilog. This project models
the parts of it whose correctness is an argument over many clocks or many cases, and proves that argument:

- **Store and load order.** Stores leave EX for WB, where they are posted to a ring or written
  synchronously; a data read is answered by the port, by the fast read path, or by forwarding. `Memory`
  is the specification (a flat big-endian byte memory behind any page map, aliases included, with stores
  applied in program order), `BusControl` the bus controller's transition, `BusRegisters` the same as a
  class over its registers and arrays, `StoreOrder` the controller together with EX, WB and the read path
  under any timing. `Splitting`, `Forwarding` and `StoreOrderProof` hold the proofs. `LocalMemory` is the
  word memory used without a bus, with byte-wise store merging.
- **Prefetch and prediction.** `Prefetch` is the queue and branch target buffer, `PrefetchRegisters` their
  class, `Prediction` the queue with ID's gathering, confirmation and repair. Decoding is an arbitrary
  function: an instruction's length is told by its own words, and it has a class and a target.
  `ReturnStack` is the eight-entry return-address stack; `StrayRun` two runs in which prediction shows;
  `Learning` what the buffer learns; `Progress` where a run goes on and that it does.
- **Sequencers.** `Movem`, `MovemProof`, `MovemRestart`, `MovemBytes` (what a run leaves, byte by byte); `Exceptions` (frames, RTE, nesting) and
  `ExceptionSteps` (the same one clock at a time) and `ExceptionPipe` (with commits delayed); `Bitfield`.
- **Arithmetic.** `Divider`, `MultiplyDivide`, `Shifter`, `Extended`; `Vectors` holds the bit-vector operators that
  `Shifter` and `Bitfield` share.
- **The 16-bit bus adapter.** `BusAdapter`.

A clocked block is a record of registers and a `Next` function of registers and inputs; beside it a class
holds the registers and arrays the way the design does, and its `Step` (or `Clock`) method is proved to be
that function. Everything proved over runs quantifies over all inputs at every clock: acknowledges,
stalls, lookups, redirects and instruction arrival come in any pattern. `ce` is 1 throughout.

What the parts not shown are assumed to do: memory answers a port read with its bytes; a read-path hit
returns, byte by byte, what memory held at a lookup edge of that read (`StoreOrder.Legal`); a fetch is
answered with the code at its address, and a vector read with the vector; the client has one read outstanding and posts only into a ring that
is not full. In `ReadsAreExact` the reading instruction waits in EA-fetch, so no store enters EX while its
read is outstanding (`StoreOrder.Patient`); `ReadsAreAtomic` does without that. `SB_N` is 2, 4 or 8:
at those depths the ring's pointers wrap where the ring does.

Findings:

- With the buffer on, a mark that ends an illegal instruction of more than one word sends fetching to the
  address one word on, where the unpredicted core goes past the whole instruction
  (rtl/ap040_decode.v:1632, 1741). `Transparent` proves that two runs emit the same instructions exactly as far
  as such emissions (`Strays`) are the same in both, so without one prediction is transparent; `PredictionShows`
  is a five-clock run, a MOVEC of an unknown control register, in which it is not. The instruction's exception
  redirects the fetch either way.
- A MOVEM to -(An) restarts without a trace if its An update has a micro-op of its own, which is the reason the
  code gives for `MM_TAIL`, set in bus builds (rtl/ap040_ea_fetch.v:63-67). Without it, `RestartShows` proves that
  An comes out right only if the access errors in the last store, each moving it by the whole list, move it by a
  multiple of 2^32; `OneFaultShows`: one such error is enough to leave it wrong.
- The bus controller's header says that a read never needs forwarding from the store queue; the code has a
  forwarding search and a fast path, and the model follows the code.

## Model

| member | source | states |
|---|---|---|
| Splitting.PiecesTile | rtl/ap040_pipe_bcu.v:254-278 | the pieces of a transfer cover exactly its bytes |
| Splitting.SplitsOnlyWhere | rtl/ap040_pipe_bcu.v:254-274 | an access is split exactly if translation is on and it crosses a page or MISPLIT is on and it is misaligned, into words exactly at an odd word |
| Splitting.PieceInPage | rtl/ap040_pipe_bcu.v:254-258 | with translation on no issued piece crosses a page, for either page size |
| Splitting.PieceInLongword | rtl/ap040_pipe_bcu.v:268-274 | with MISPLIT on every piece lies in one longword |
| Splitting.PieceLanes | rtl/ap040_pipe_bcu.v:259-267 | the data lanes of piece i are the store's bytes from where the piece starts |
| Splitting.PieceWrites | rtl/ap040_pipe_bcu.v:452-470 | memory taking one piece is memory with that much more of the store in it, through any page map |
| Splitting.SplitStoreIsWhole | rtl/ap040_pipe_bcu.v:452-470 | all pieces of a split store leave memory as the whole store would, for every address, size and page mode |
| Splitting.GatherOne | rtl/ap040_pipe_bcu.v:428-432 | one more piece's answer extends the bytes gathered so far |
| Splitting.AssembleAll | rtl/ap040_pipe_bcu.v:278-279 | the last piece's answer completes the whole big-endian value |
| Forwarding.FiltersAgree | rtl/ap040_pipe_bcu.v:300-331 | the longword-index filter of the ring lookup and the page-offset filter of forwarding are one |
| Forwarding.FilterConservative | rtl/ap040_pipe_bcu.v:324-331 | where f_ovl says no, the store and the read share no byte, whatever pages alias |
| Forwarding.FilterMeans | rtl/ap040_pipe_bcu.v:324-331 | ... and it says yes only where two bytes share a longword's place in their pages |
| Forwarding.CoverIsContainment | rtl/ap040_pipe_bcu.v:332-339 | where f_cov says yes, every byte of the read is the store's byte at a fixed offset |
| Forwarding.CoverMeans | rtl/ap040_pipe_bcu.v:332-339 | ... and it says yes exactly where both lie in one page and the read within the store |
| Forwarding.CoverAnswers | rtl/ap040_pipe_bcu.v:340-349 | f_ext of a covering store is what memory holds for the read once the store is applied |
| Forwarding.SearchExact | rtl/ap040_pipe_bcu.v:350-381 | when the youngest-first search over EX, WB and any ring contents hits, its value is memory after all those stores in order |
| BusRegisters.StoreRing.LookupHit | rtl/ap040_pipe_bcu.v:307-314 | the loop over the valid flags finds exactly whether some queued store may overlap the read |
| BusRegisters.StoreRing.Search | rtl/ap040_pipe_bcu.v:371-380 | the loop back from the write pointer gives the newest overlapping entry's verdict |
| BusRegisters.StoreRing.Push | rtl/ap040_pipe_bcu.v:410-415 | a posted store joins at the end; the valid flags stay exactly the ring from sb_rp of length sb_cnt |
| BusRegisters.StoreRing.Pop | rtl/ap040_pipe_bcu.v:437-443 | the oldest entry leaves, its flag cleared and no other |
| BusRegisters.StoreRing.Turn | rtl/ap040_pipe_bcu.v:410-443 | a pop and a push in one clock |
| BusRegisters.Bcu.StartStore | rtl/ap040_pipe_bcu.v:457-470 | a store's first request: whole, first word or first byte |
| BusRegisters.Bcu.StartRead | rtl/ap040_pipe_bcu.v:471-478 | the slot's read goes out, split where it must be |
| BusRegisters.Bcu.NextPiece | rtl/ap040_pipe_bcu.v:452-456 | the next piece of a split transfer |
| BusRegisters.Bcu.StepPort | rtl/ap040_pipe_bcu.v:427-483 | the port's registers follow NextBus; a popped entry is never the one still going out |
| BusRegisters.Bcu.Answers | rtl/ap040_pipe_bcu.v:402-449 | rd_ack, f_ack, store completion and the ring pop of one clock |
| BusRegisters.Bcu.Step | rtl/ap040_pipe_bcu.v:384-484 | a clock of all the registers is Next; a raised request stands unchanged until answered and is low the clock after |
| BusRegisters.SpFinIsLast | rtl/ap040_pipe_bcu.v:275-279 | sp_fin is raised exactly at the last piece, or on a fault |
| StoreOrderProof.Moves | rtl/ap040_pipe_core.v:341-356 | in a clock, each store in EX, WB and the ring stays, moves one place on, or lands, and none is lost or doubled |
| StoreOrderProof.KeepsAccounted | rtl/ap040_pipe_core.v:341-419 | the stores in memory followed by those in ring, WB and EX are always all stores, in program order |
| StoreOrderProof.KeepsLined | rtl/ap040_pipe_bcu.v:232-248 | the port's store is the ring's oldest, or WB's own with the ring empty |
| StoreOrderProof.KeepsMem | rtl/ap040_pipe_bcu.v:427-470 | memory is always the landed stores' memory plus the pieces done of the one being written |
| StoreOrderProof.KeepsPortReads | rtl/ap040_pipe_bcu.v:238-241 | while the port reads, memory stands as when the read was granted, with every store then sent |
| StoreOrderProof.KeepsVerdicts | rtl/ap040_pipe_core.v:642-684 | a clean verdict registered at issue still holds in the clock, or two clocks, the answer is used |
| StoreOrderProof.KeepsAnswer | rtl/ap040_pipe_core.v:674-684 | each way of answering leaves the exact value in rd_data |
| StoreOrderProof.KeepsInv | rtl/ap040_pipe_core.v:642-684 | every legal clock keeps the whole system invariant |
| StoreOrderProof.ReadAnswer | rtl/ap040_pipe_bcu.v:420-444 | a read is acknowledged in exactly the clocks after its last piece's answer, a fault of any piece, or a hit or forward, and rd_err is mem_flt |
| StoreOrderProof.ReadsAreExact | rtl/ap040_pipe_core.v:642-684 | in every run each data read, by port, fast path (one or two clocks) or forwarding, is answered with an access error exactly if memory gave one, and otherwise with memory after exactly the older stores |
| StoreOrderProof.ReadsAreAtomic | rtl/ap040_pipe_bcu.v:420-426 | without the wait in EA-fetch, one single point of program order, not before the read's issue, explains all the bytes of an answer memory did not fault |
| StoreOrderProof.StoresLandInOrder | rtl/ap040_pipe_bcu.v:205-250 | every store reaches memory exactly once and in program order; with nothing in flight memory is the initial one with all applied |
| StoreOrderProof.PortPriority | rtl/ap040_pipe_bcu.v:232-248 | a synchronous store never passes a posted one, and no fetch is granted while a store that left EX is not in memory |
| StoreOrderProof.FetchesAreExact | rtl/ap040_pipe_bcu.v:445-448 | in every run a fetch granted is acknowledged once, when memory answers, with f_err exactly on a fault and otherwise the bytes at its address as of its grant, after every store that had left EX; a one-word fetch has them on top of a NOP |
| StoreOrderProof.PortTakes | rtl/ap040_pipe_bcu.v:457-482 | what goes out on an idle port, and in which order of preference: address, size, function code, data, lock |
| StoreOrderProof.PortMoves | rtl/ap040_pipe_bcu.v:232-290 | the port never idles over a store, read or fetch that may go, and a transfer ends within nine clocks of answered requests |
| StoreOrderProof.HitsAreFast | rtl/ap040_pipe_core.v:642-684 | with no store about, a read that hits is answered in the clock after its issue without the port |
| StoreOrderProof.StoreErrorSticks | rtl/ap040_pipe_bcu.v:437-442 | st_err is raised exactly by a posted store's access error, and stays |
| LocalMemory.StMerge | rtl/ap040_pipe_pkg.sv:231-249 | the byte loop replaces exactly the load's bytes that the store covers |
| LocalMemory.MergeExact | rtl/ap040_pipe_pkg.sv:228-249 | merging one store into a right load gives the load after that store |
| LocalMemory.MergeAllExact | rtl/ap040_pipe_pkg.sv:228-249 | folded oldest-first over any store list, merging is reading memory after all of them |
| LocalMemory.SearchIsMerge | rtl/ap040_pipe_bcu.v:350-381 | the forwarding search, when it hits, gives the bytes that merging oldest-first gives |
| LocalMemory.L1.WriteBytes | rtl/ap040_pipe_l1.v:99-108 | the byte loop writes the store's bytes into the right halves of the words |
| LocalMemory.L1.ReadBytes | rtl/ap040_pipe_l1.v:110-115 | the byte loop gathers the operand, right-aligned |
| LocalMemory.L1.Clock | rtl/ap040_pipe_l1.v:93-118 | write first, so a read of the same clock sees the write; the fetch port reads two words as they were |
| LocalMemory.WrittenModels | rtl/ap040_pipe_l1.v:60-108 | over the addresses it reaches, the word memory after a store is the flat byte memory after it |
| LocalMemory.FetchIsFlat | rtl/ap040_pipe_l1.v:94 | the fetch port's two words are the flat memory's four bytes at the word's address |
| LocalMemory.GatheredAnswers | rtl/ap040_pipe_l1.v:68-115 | ... and a read of it is a read of the flat memory |
| LocalMemory.LoadIsExact | rtl/ap040_ea_fetch.v:580-598 | a load from it with WB's and EX's stores merged in is right for all of them |
| PrefetchProof.HeadIsStream | rtl/ap040_inst_fetch.v:149-153 | the one or two words ID is offered are the code at the head's address and at the next, or at the predicted target after a mark |
| PrefetchProof.PopKeeps | rtl/ap040_inst_fetch.v:222-269 | taking words shifts the stream by as many, jumping to the target past the mark |
| PrefetchProof.ReceiveKeeps | rtl/ap040_inst_fetch.v:231-250 | an answer's words continue the stream where it ended, a predicted fetch's up to the branch's last word |
| PrefetchProof.LaunchKeeps | rtl/ap040_inst_fetch.v:270-288 | a fetch that goes out continues the stream, and the one after a predicted fetch is the target's |
| PrefetchProof.StepKeepsStream | rtl/ap040_inst_fetch.v:202-293 | after every clock the queue is exactly the code's words in stream order, none lost, doubled or from a dropped fetch, never more than six with those coming |
| PrefetchProof.WordsInRanges | rtl/ap040_inst_fetch.v:168-171 | every queued or coming word lies in one of the two reported code ranges where no address wraps |
| PrefetchProof.RangesAreTight | rtl/ap040_inst_fetch.v:168-171 | ... and the ranges are together no longer than those words |
| PrefetchRegisters.InstFetch.ShiftAndAppend | rtl/ap040_inst_fetch.v:222-246 | the array loops drop the taken words and append the arrivals |
| PrefetchRegisters.InstFetch.UpdateBtb | rtl/ap040_inst_fetch.v:295-312 | one entry written, or all cleared, in the buffer array |
| PrefetchRegisters.InstFetch.Decide | rtl/ap040_inst_fetch.v:179-193 | whether a fetch goes out, and with which prediction |
| PrefetchRegisters.InstFetch.Step | rtl/ap040_inst_fetch.v:202-293 | a clock of the arrays and registers is NextF |
| PredictionProof.EmitsRight | rtl/ap040_decode.v:1672-1701 | the words ID emits are the instruction at the program's address, whatever was predicted |
| PredictionProof.ContinuesRight | rtl/ap040_decode.v:1739-1741 | after an emission fetching goes where the program goes, which is where it would unpredicted unless, and only unless, a mark ends an illegal instruction of several words |
| PredictionProof.KeepsFront | rtl/ap040_decode.v:1752-1782 | every clock keeps gathering, queue, stack and path in step with the program |
| PredictionProof.KeepsPaid | rtl/ap040_decode.v:1742-1750 | a restart without an emission clears a valid buffer entry, or is that of the one prediction a clear found outstanding |
| PredictionProof.OnePath | rtl/ap040_decode.v:1672-1741 | two emission lists on one program's path agree exactly as far as each illegal instruction of several words ends on a mark in both or in neither |
| PredictionProof.Transparent | rtl/ap040_decode.v:1691-1750 | for any buffer contents and any timing, with no fetch faults, two runs emit the same (pc, words) sequence exactly as far as they stray alike |
| PredictionProof.TransparentUntilStray | rtl/ap040_decode.v:1691-1750 | the core with the buffer emits what the core without it does, exactly as far as no mark has ended an illegal instruction of several words |
| StrayRun.PredictionShows | rtl/ap040_decode.v:1632-1741 | a run of five clocks, from a redirect, in which the second instruction is at 0x1002 with the buffer and at 0x1004 without |
| PredictionProof.NoLivelock | rtl/ap040_decode.v:1695-1700 | an instruction is dropped and fetched again at most sixteen times between emissions, however often the buffer is cleared |
| Progress.RestartsBounded | rtl/ap040_decode.v:1695-1700 | ... counted over any stretch of any run |
| Progress.EmitsSoon | rtl/ap040_inst_fetch.v:179-193 | from any state of any run, whatever the buffer holds, 799 clocks in which EA-calc takes and memory grants and answers are enough for an emission |
| Progress.GoesOn | rtl/ap040_decode.v:1729-1741 | after every emission the next word offered is at the branch's target, the predicted return address, or past the instruction |
| Progress.RasFollows | rtl/ap040_decode.v:1718-1727 | the return-address stack is what the calls and returns emitted make of it |
| Progress.ReturnsGoBack | rtl/ap040_decode.v:1709-1716 | a predicted return goes to the address after the call it matches |
| Learning.LearnsBranch | rtl/ap040_decode.v:1742-1750 | in every run a taken branch that no mark ended is entered for the fetch that brings its last word, with its target |
| Learning.FoundAgain | rtl/ap040_inst_fetch.v:179-186 | fetched again it is found, the target's fetch follows, and the mark is to come on its last word |
| Learning.PredictsItsOwn | rtl/ap040_inst_fetch.v:179-186 | only a valid entry of the fetch's own address and S bit predicts |
| Learning.FrontS | rtl/ap040_inst_fetch.v:156-162 | the fetch path's S bit is the last redirect's: ID's own keep it, a later stage's brings its own |
| Learning.PredictionStays | rtl/ap040_inst_fetch.v:263-276 | a prediction stands until its marked word is taken or a redirect comes |
| Learning.PredictionConfirmed | rtl/ap040_decode.v:1729-1741 | when ID comes to the branch it is emitted, the guess is right, nothing is redirected and the head is the target |
| PredictionProof.EmitsCode | rtl/ap040_decode.v:1672-1701 | in every run each emission is the instruction in memory where the program is, and the next fetch is where the program goes |
| ReturnStack.ReturnAddresses.Step | rtl/ap040_decode.v:1718-1727 | the array, pointer and count after a call, a return or neither |
| ReturnStack.ReturnAddresses.Predict | rtl/ap040_decode.v:1709-1716 | the entry below the pointer, if any is held |
| ReturnStack.RasIsNewest | rtl/ap040_decode.v:1705-1727 | for every sequence of calls and returns the entries held are the newest of an unbounded stack, after overflow and underflow too |
| ReturnStack.ShallowIsExact | rtl/ap040_decode.v:1718-1727 | calls nested no deeper than eight: every return is predicted |
| Movem.Sequencer.Start | rtl/ap040_ea_fetch.v:3085-3099 | the transfer registers as a MOVEM's address becomes known |
| Movem.Sequencer.Clock | rtl/ap040_ea_fetch.v:3100-3125 | a clock of the sequencer's registers and the micro-op it sends |
| MovemProof.ListedMeans | rtl/ap040_ea_fetch.v:1420-1449 | lowest bit first, the list names each register of the mask once and no other, in ascending order |
| MovemProof.LoadSends | rtl/ap040_ea_fetch.v:1504-1558 | a load's micro-op, from the answer or the buffer, is the next register with its memory value, the base register's on the last |
| MovemProof.LoadKeeps | rtl/ap040_ea_fetch.v:1485-1492 | reads go out one ahead, one value waits while EX stalls, and nothing is lost |
| MovemProof.StoreSends | rtl/ap040_ea_fetch.v:1504-1558 | a store's micro-op is the next register at the next address, and An's update rides on the last or trails it |
| MovemProof.SendsThePlan | rtl/ap040_ea_fetch.v:1472-1577 | under every stall, latency and hazard the micro-ops sent are a prefix of the instruction's, and all of them when it finishes |
| MovemProof.ClockMoves | rtl/ap040_ea_fetch.v:1478-1504 | a clock with no stall or hazard and the read answered brings the end nearer |
| MovemRestart.RunDoesIt | rtl/ap040_ea_fetch.v:1472-1577 | a run that ends has the whole instruction's effect, whatever its timing |
| MovemRestart.LoadResult | rtl/ap040_ea_fetch.v:1504-1558 | each listed register takes its own operand's value; (An)+ ends past the operands and is never loaded; a listed base takes its own value; all else stays |
| MovemBytes.LoadMeans | rtl/ap040_ea_fetch.v:1504-1558 | ... byte by byte, told by the mask alone: which bytes of memory each register holds, a word sign-extended, and the number An ends at |
| MovemBytes.EaMeans | rtl/ap040_ea_fetch.v:502-527 | the effective address each mode starts from |
| MovemRestart.StoreResult | rtl/ap040_ea_fetch.v:1504-1558 | memory takes the listed registers in order, the base of an -(An) list as decremented once; An ends at the last operand |
| MovemBytes.StoreMeans | rtl/ap040_ea_fetch.v:1504-1558 | ... byte by byte: each listed register's bytes are in memory at its own place, through any page map, no other byte has changed, and An ends at the last operand's address |
| MovemBytes.RunMeans | rtl/ap040_ea_fetch.v:1472-1577 | a run that ends, whatever its timing, leaves that |
| MovemBytes.LastIsLast | rtl/ap040_ea_fetch.v:1504-1558 | exactly one micro-op is marked last, and it alone writes the base register |
| MovemRestart.SaveRestore | rtl/ap040_ea_fetch.v:1472-1577 | MOVEM.L list,-(An) then MOVEM.L (An)+,list restores every listed register and An, for any list, contents and page map |
| MovemRestart.ReadFaultIsPossible | rtl/ap040_ea_fetch.v:1343-1367 | a read in error is of the transfer the sent micro-ops stop at, so the base register is not among them |
| MovemRestart.StoreFaultIsPossible | rtl/ap040_pipe_core.v:338-352 | in every run a store that WB finds in error, its register writes standing and all younger micro-ops dropped, leaves the state of an abandoned attempt |
| MovemRestart.StandingWrites | rtl/ap040_pipe_core.v:342-346 | ... which differs in registers only if the store is the last of an -(An) list and carries An's update |
| MovemRestart.AbandonKeeps | rtl/ap040_ea_fetch.v:1545-1557 | an attempt abandoned by any other access error changes only what a whole run sets again, and not the base register |
| MovemRestart.RestartIsInvisible | rtl/ap040_ea_fetch.v:502-527 | access errors at any transfers, any number of times, each restart using the saved or the recomputed EA as the mode says, end in the registers and memory of an undisturbed run: in every mode but -(An), in -(An) with the trailing micro-op, and without it while none is in the last store |
| MovemRestart.RestartShows | rtl/ap040_ea_fetch.v:63-67 | -(An) without the trailing micro-op: the registers end right exactly if the access errors in the last store times the list's bytes is a multiple of 2^32 |
| MovemRestart.OneFaultShows | rtl/ap040_ea_fetch.v:63-67 | ... so one such access error always leaves An wrong |
| Exceptions.FrameIsAt | rtl/ap040_ea_fetch.v:973-1006 | a frame's stores put SR, PC, format and vector offset where they belong |
| Exceptions.FrameRestIs | rtl/ap040_ea_fetch.v:973-1006 | formats $2, $3, $4 and $7 hold their address, PC and longwords where they should |
| Exceptions.FrameSizes | rtl/ap040_ea_fetch.v:973-980 | the bytes each format takes |
| Exceptions.SrBits | rtl/ap040_ea_fetch.v:1037-1048 | of a stacked word each implemented bit of SR is taken, and no other |
| Exceptions.RteFrameMeans | rtl/ap040_ea_fetch.v:1037-1062 | what an RTE does with any frame: known formats, sizes, the status register's bits, the stack that moves, and where it goes |
| Exceptions.FrameKeeps | rtl/ap040_ea_fetch.v:985-1006 | ... and touch no byte outside the frame, wherever its pages are |
| Exceptions.OneFrameStacks | rtl/ap040_ea_fetch.v:1008-1035 | an entry stacks one frame on the stack M selects, sets S, clears T, keeps M, raises the mask for an interrupt, keeps the condition codes and goes to the vector's address |
| Exceptions.TwoFramesStack | rtl/ap040_ea_fetch.v:2733-2756 | an interrupt with M set stacks a normal frame on the master stack and a throwaway one on the interrupt stack, and starts its handler with M and T clear at its level |
| Exceptions.ReturnRestores | rtl/ap040_ea_fetch.v:1037-1048 | the RTE after a balanced handler takes back what the entry stacked, both frames of a throwaway entry |
| Exceptions.NestingReturns | rtl/ap040_ea_fetch.v:2730-2807 | for every event, mode, stack and nesting of balanced handlers, SR, USP, ISP, MSP and everything on the stacks return to their starting values and execution goes on at the stacked PC, through any page map and with handlers that change it |
| ExceptionSteps.FrameSequencer.StepEntry | rtl/ap040_ea_fetch.v:2730-2784 | a clock of the entry's step registers and the micro-op it sends |
| ExceptionSteps.FrameSequencer.PushWord | rtl/ap040_ea_fetch.v:2731-2760 | one frame longword out, and the turn to the vector or to the throwaway frame after the last |
| ExceptionSteps.FrameSequencer.StepRte | rtl/ap040_ea_fetch.v:2785-2807 | a clock of the RTE's step registers and the micro-op it sends |
| ExceptionSteps.PushKeeps | rtl/ap040_ea_fetch.v:2731-2760 | each frame longword goes out once and in order, in both frames |
| ExceptionSteps.LastEnters | rtl/ap040_ea_fetch.v:1008-1035 | the last micro-op makes the state the whole entry's, or for an odd handler address all of it but the jump |
| ExceptionSteps.EntryIsSound | rtl/ap040_ea_fetch.v:1186-1196 | whatever the stalls and latencies, what has been stacked is always the entry's first part, and a finished sequence is the entry; an odd handler address adds one address error, or halts |
| ExceptionSteps.EntryEnds | rtl/ap040_ea_fetch.v:1186-1196 | in every run that ends in a handler, after an odd handler address too: S set, T clear, M, mask and condition codes as they should be, and PC the longword memory holds at VBR + 4 * vector |
| ExceptionSteps.AddressErrorIs | rtl/ap040_ea_fetch.v:2758-2768 | an odd handler address gives a format $2 address error at the vector's offset |
| ExceptionSteps.EntryMoves | rtl/ap040_ea_fetch.v:2730-2784 | with nothing in its way an entry ends within 140 clocks |
| ExceptionSteps.FrameSequencer.StepStart | rtl/ap040_ea_fetch.v:1094-1098 | an RTE waits for older micro-ops, then checks privilege, at its start and after each throwaway frame |
| ExceptionSteps.RteIsRte | rtl/ap040_ea_fetch.v:1197-1219 | a clock of an RTE goes on reading its frame or ends at the stacked PC, at the next frame, with an address error for an odd PC (SR stacked with S set), or with a format error |
| ExceptionSteps.RteRunIsRte | rtl/ap040_ea_fetch.v:1197-1219 | in every run from the RTE's start, through any number of throwaway frames: it is reading the frame they leave on top, has gone where that frame says, or is entering or has entered the one exception that frame gives |
| ExceptionSteps.TrapIs | rtl/ap040_ea_fetch.v:1097-1098 | which exception that is, with its vector, format, PC and address |
| ExceptionSteps.RteMoves | rtl/ap040_ea_fetch.v:1197-1219 | with nothing in its way an RTE is through with a frame within 13 clocks |
| ExceptionSteps.RteRunReturns | rtl/ap040_ea_fetch.v:2785-2807 | so a run that goes to a program through at most one throwaway frame ends as the RTE of the nesting results, and where that returns no run ends otherwise |
| ExceptionPipe.DelayedEntryIsSound | rtl/ap040_ea_fetch.v:2730-2784 | the entry is the same when every micro-op commits any number of clocks after it is sent: the waits for older ones are enough |
| ExceptionPipe.DelayedRteIsRte | rtl/ap040_ea_fetch.v:2785-2807 | ... and so is the RTE, the exceptions it takes included |
| Bitfield.JustTheField | rtl/ap040_ea_fetch.v:476-484 | one to five bytes are touched, each holding a bit of the field, and the field lies in them |
| Bitfield.FieldIsRead | rtl/ap040_ea_fetch.v:783-829 | for any signed offset and width 1 to 32 the evaluated field is exactly those bits of memory |
| Bitfield.FieldIsWritten | rtl/ap040_ea_fetch.v:783-864 | a modifying operation sets exactly the field's bits to the new field and leaves every other bit of memory |
| Bitfield.FieldBecomes | rtl/ap040_ea_fetch.v:783-864 | ... each bit of it inverted, cleared, set or taken from the register, the bits of memory counted as binary digits |
| Bitfield.StoredIsAll | rtl/ap040_ea_fetch.v:833-864 | one or two stores, in order, make that change |
| Bitfield.EvalResult | rtl/ap040_ea_fetch.v:783-814 | N and Z, BFEXTU's and BFEXTS's values, and BFFFO's distance to the first one bit |
| Bitfield.InsertThenExtract | rtl/ap040_ea_fetch.v:783-864 | BFINS then BFEXTU returns the inserted low bits |
| Bitfield.RegisterField | rtl/ap040_ea_fetch.v:826-829 | the register form's field is the register's bits from the offset mod 32, wrapping |
| Bitfield.RegisterFieldSet | rtl/ap040_ea_fetch.v:802-814 | ... and it changes exactly those bits |
| Bitfield.RegisterBecomes | rtl/ap040_ea_fetch.v:794-812 | ... each inverted, cleared, set or taken from the other register |
| Divider.MulDivUnit.Step | rtl/ap040_pipe_muldiv.v:90-159 | a clock of the unit's registers |
| Divider.StepKeeps | rtl/ap040_pipe_muldiv.v:69-80 | one restoring step keeps remainder, unshifted dividend and quotient bits accounting for the dividend |
| Divider.StepsDivide | rtl/ap040_pipe_muldiv.v:24-27 | after 64 steps the accumulator is the remainder and the quotient |
| Divider.QuotientDivides | rtl/ap040_pipe_muldiv.v:14-18 | the quotient truncated toward zero and its remainder satisfy dividend = quotient * divisor + remainder, the remainder smaller than the divisor and with the dividend's sign |
| Divider.DividesOnce | rtl/ap040_pipe_muldiv.v:14-18 | no other pair does |
| Divider.UnitIsRight | rtl/ap040_pipe_muldiv.v:106-158 | from a start pulse done is low, and 17 clocks on for a division (1 for a product) high with quotient, remainder and overflow, or the 64-bit product, right for every operand but a zero divisor |
| MultiplyDivide.ArmIsRight | rtl/ap040_execute.v:331-376 | every MULx and DIVx form writes the architecture's registers and flags; on overflow V is set and the registers keep their values |
| MultiplyDivide.DivideMeans | rtl/ap040_execute.v:331-364 | as numbers: quotient and remainder of the registers' values where they go, N and Z of the quotient; where it does not fit V and nothing else |
| MultiplyDivide.MultiplyMeans | rtl/ap040_execute.v:350-376 | as numbers: the product's 64 or 32 bits, and V exactly if 32 are not enough |
| MultiplyDivide.ExStage.Step | rtl/ap040_execute.v:82-114 | a clock of the busy flag and the unit, the hold, and what goes to WB |
| MultiplyDivide.ResultsAreRight | rtl/ap040_execute.v:73-114 | in every run, however long WB stalls, a multiply or divide that goes to WB takes the architecture's result with it |
| MultiplyDivide.ExTakes | rtl/ap040_execute.v:112-114 | it leaves EX after exactly 3 clocks, or 19 for a division, when WB does not stall |
| MultiplyDivide.StalledStartsOver | rtl/ap040_execute.v:82-114 | one that WB cannot take when it is ready stays, is computed again, and leaves only when WB takes it |
| Shifter.ShiftMoves | rtl/ap040_pipe_alu.v:272-339 | where every bit of the result, C and X come from, for every operation, size and count |
| Shifter.AslOverMeans | rtl/ap040_pipe_alu.v:292-299 | ASL's V is raised exactly when two of the bits that pass the sign's place differ |
| Shifter.ShiftFlags | rtl/ap040_pipe_alu.v:264-339 | N and Z of every result, and V raised only by ASL and exactly when the operand's sign changes on the way |
| Shifter.BarrelIsIteration | rtl/ap040_pipe_alu.v:264-339 | the closed form, with EX's rule for a count of zero, equals shifting one place at a time, result and all five flags, for every count |
| Extended.UnitIsExact | rtl/ap040_pipe_alu.v:66-109 | one ADDX, SUBX, ABCD or SBCD is exact with its X, and Z only ever goes down |
| Extended.ChainIsExact | rtl/ap040_pipe_alu.v:157-170 | a chain over any number of operands is the whole sum or difference, binary or decimal, X its carry or borrow, Z set exactly when it started set and the whole result is zero |
| Extended.ChainIsSigned | rtl/ap040_pipe_alu.v:87-90 | the last V of an ADDX or SUBX chain says that the whole signed result does not fit, and the last N is its sign |
| Extended.DecimalKeepsNV | rtl/ap040_pipe_alu.v:243-254 | ABCD and SBCD chains leave N and V |
| Extended.NbcdIsSbcdFromZero | rtl/ap040_pipe_alu.v:111-118 | NBCD is SBCD from zero, for every byte, decimal or not |
| BusAdapter.Adapter.Step | rtl_old/ap040_bus16_adapter.v:94-210 | an edge of the adapter's registers and pins |
| BusAdapter.MovesOn | rtl_old/ap040_bus16_adapter.v:155-208 | sub-cycles and idle clocks alternate; after each, exactly its bytes have moved |
| BusAdapter.BusShows | rtl_old/ap040_bus16_adapter.v:133-208 | the pins in every sub-cycle: kind, direction, address, function code, lanes and data; between two, idle |
| BusAdapter.SubCycleMoves | rtl_old/ap040_bus16_adapter.v:169-208 | a sub-cycle that completes ends the transfer or leaves strictly fewer bytes |
| BusAdapter.TransferIsWhole | rtl_old/ap040_bus16_adapter.v:94-210 | at every alignment a write stores exactly the operand's bytes once, or a read returns its right-aligned value, with one acknowledge and none before |
| BusAdapter.BusErrorAborts | rtl_old/ap040_bus16_adapter.v:118-131 | a bus error ends the transfer unacknowledged, the failed sub-cycle writing nothing |
| BusAdapter.OneAcknowledge | rtl_old/ap040_bus16_adapter.v:115-153 | the acknowledge lasts one edge |

## Left out

- Opcode tables, effective-address tables and FPU sequencing: long case lists resting on an unseen unit; decoding is an arbitrary length, class and target function.
- The caches, the MMU and the memory system: translation is any map of page frames, fixed but for what exception handlers do to it, a read-path hit returns memory's byte at a lookup edge, and the postable-page table only decides whether a store is posted.
- The all-posted store mode (`POST` = 1) and late operand dispatch (`LDX`): the modes modelled are synchronous stores with or without posting to the ring.
- Store access errors in the store-order model: a run is considered up to the first one; for MOVEM they are modelled.
- Self-modifying-code refetch, the faulted-fetch address `pf_addr`, the `PROG_WORDS` bound and backward-taken guessing (`BTFN`); poisoned words are flags.
- MOVEP and MOVE16, which share the MOVEM sequencer; and the two-slot record of which MOVEM's address a late store fault reports.
- A multiply or divide dropped from EX by a fault while the unit runs: `ExStage` is driven with the micro-op held until it leaves.
- The frame's contents beyond what an RTE reads (SSW and write-back fields of format $7 are carried as given longwords) and the FPU's format $4 return.
- Access errors of an exception's own stores and reads, and double faults other than an odd handler address of vectors 2 and 3, trace and interrupt sampling, reset.
- Clock gating, and the debug and test taps.
- LocalMemory.SearchIsMerge: is stated with translation off, because the byte merge compares untranslated addresses and no function codes.
- LocalMemory.LoadIsExact: is stated for addresses the word memory reaches, because beyond them it wraps and the byte merge does not see the alias.
