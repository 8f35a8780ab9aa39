# Models of the DE1-SoC calibration firmware and boot loader algorithms

These Dafny modules model the parts of the repository whose correctness does not show in one function
body, and prove what they promise. Each module follows one component.

| module | component |
|---|---|
| `DelayGroup`, `TapWindow` | per-bit deskew and DM centring of the DDR3 sequencer |
| `Calibration` | one whole calibration run: groups, stages, early exits, failure bookkeeping |
| `DqsTaps`, `DqsWindow`, `DqsEnable` | the search for the DQS enable window and the taps programmed for its middle |
| `IdleDelay` | waiting by nested loop counters |
| `DebugHandshake` | the command word and status word shared by the firmware and a debug host |
| `PpcOperands`, `PpcAssembler`, `PpcStepper` | the PowerPC assembler, disassembler and single-stepper |
| `Floppy` | the floppy reader with its nested retries |
| `BootStage` | stashing boot stage records for the next stage, and reading them back |
| `FlashRange` | from an address range to flash sectors |
| `Eeprom` | page-bounded EEPROM transfers |
| `ElfLoad` | loading program headers |
| `CInt`, `Words`, `Bytes`, `Division` | C division, 32-bit words as bits, bytes in memory, facts about quotients |

## What stands for what

- The memory behind the sequencer is an arbitrary pass/fail oracle. For the deskew it depends on a pin and on how
  far DQS lags it; for DM on the DM and DQS taps; for the DQS enable search any test may answer anything each
  time, and what is proved of memories with one window is proved in addition; in a whole run the result of a stage
  may depend on all the stages that ran before it. Negative positions delay the data pin, positive positions delay the strobe.
- The configuration is this board's: DQS is centred when reading (`ENABLE_DQS_IN_CENTERING`) but not when
  writing, DQS enable does not follow DQS, phase 0 is skipped, one memory clock per AFI clock unless a ratio is
  given. Tap sizes and limits are parameters.
  `test_bgn` is 0, as it is with one read group per write group.
- The debug host waits for READY, stores parameters, posts a command, waits for an answer and acknowledges it. It
  posts neither the WAIT nor the ACK word. Each single load and store is a step; stores take effect in program order.
- The operand table is the one of `tables.h`; the opcode table is a parameter with the layout that table has: sorted
  by opcode, one mask for each primary opcode, and the twelve branch instructions in it. Words are sequences of 32 bits,
  numbers are unsigned 32-bit values. The branch rules are those of section 2.4 of Power ISA Book I, version 2.06,
  with 32-bit addresses.
- The floppy controller takes or refuses each command and completes or breaks off each transfer as it likes; it always
  answers. A disk gives the bytes of each sector.
- The EEPROM's write pointer wraps around inside a page, whose size divides 256; its read pointer runs on. A transfer
  that is not acknowledged leaves the memory in any state.
- Records, headers and program headers are bytes in memory, low byte first.

## What the proofs brought to light

- `Calibration.RetriedFailureStaysRecorded`: a VFIFO stage that reports a failure, retries and passes leaves the error
  fields set although the run succeeds. The group number handed on by the two centring routines is a DQ number.
- `PpcStepper.StepExact`: the stepper ignores a taken conditional branch whose BO field has a hint bit or a reserved bit
  in one of the places it looks at (1 with 1z, or 1 with a second 1 in the CTR bits); exactly those encodings are missed.
- `PpcOperands.OperandRoundTrip`: the displacement operand `O_d` has 15 bits in the table although the architecture's
  has 16, so that an offset with bit 15 set does not survive; neither do negative immediates, shown as 16-bit patterns.
- `DqsWindow.Located`: where the DQS enable window begins behind the last phase of a cycle and not behind phase 1 of the
  next, no phase is backed off, but the search for the end still goes on from two phases further while the time only
  advances by one; the end is then measured a phase tap early.
- `BootStage.WrappedSizeAccepted`: the size in a stash header is checked in 32-bit arithmetic, so that a size that
  reaches beyond the address space is taken for a small one; `BootStage.ChecksExact` says that nothing else goes wrong.
- `FlashRange.InsideExact`: the end of a bank plus one wraps around at the top of the address space, so that a later bank
  at address 0 is chosen as well.
- `Eeprom.RoundTripExact`: a range that reaches offset 2^32 is neither read nor written, and no error is returned.
- `BootStage.MinusOneAccepted`: size -1 means no limit to unstash but is an invalid length to stash.
- `Floppy.TracksWrap`: the track of a command is one byte.
- The retry counter of the floppy reader is reset by recalibration only, so that the 25 broken transfers are counted over
  the whole call, not for each track.

## Model

| member | source | states |
|---|---|---|
| `DelayGroup.Group.ReadDeskew` | proj/quartus/hps_isw_handoff/de1_soc_hps_0/sequencer.c:5094-5444 | From any taps and for any test outcomes: if every pin has at most one window, a pin without one is reported exactly when there is one, the measured edges are the windows, and success means every pin passes at the taps left behind. A pin ends centred to within a tap exactly when its centre is in reach of the DQ delay chain; if all centres are at most one delay chain apart the call succeeds with every pin so centred. A failure restores DQS and leaves DQ at 0 |
| `DelayGroup.Group.WriteCentre` | proj/quartus/hps_isw_handoff/de1_soc_hps_0/sequencer.c:7228-7765 | The same exactness for the write side, where DQS stays put: a pin ends centred exactly when its centre is not right of the strobe; the call succeeds exactly when the deskew does and DM has a non-negative margin, and then the DM setting left behind passes |
| `DelayGroup.Group.CentreDm` | proj/quartus/hps_isw_handoff/de1_soc_hps_0/sequencer.c:7645-7763 | The two DM sweeps with their early exit find the leftmost longest run of passing settings of the joined axis, and none exactly when nothing passes; the margin is non-negative exactly when the programmed setting lies in that run, which is exactly when the run starts at or before the strobe; away from the move-right clamp it is within a tap of the middle; DQS returns to its tap |
| `DelayGroup.Group.Deskew` | proj/quartus/hps_isw_handoff/de1_soc_hps_0/sequencer.c:5130-5443 | On either side: the outcome, edges and final taps are those of the two stopped sweeps and of the centring arithmetic; the read routine undoes its DQS sweep on failure, the write routine does not |
| `DelayGroup.Group.FindEdges` | proj/quartus/hps_isw_handoff/de1_soc_hps_0/sequencer.c:5130-5260 | Both sweeps: every pin’s edges are the outermost passing positions of the range swept, a pin without a passing position is left illegal, and each sweep stopped only where all pins fail after all have passed |
| `DelayGroup.Group.LeftSweep` | proj/quartus/hps_isw_handoff/de1_soc_hps_0/sequencer.c:5138-5177 | The DQ sweep computes the edges of every bit as folds over the tested delays, up to a setting where it may stop, and leaves all DQ taps at 0 |
| `DelayGroup.Group.RightSweep` | proj/quartus/hps_isw_handoff/de1_soc_hps_0/sequencer.c:5202-5260 | The DQS sweep continues those folds and leaves DQS at the last tap it tried |
| `DelayGroup.Group.ResetEdges` | proj/quartus/hps_isw_handoff/de1_soc_hps_0/sequencer.c:5178-5200 | Right edges of bits never seen to pass become illegal; the mask for the second sweep is seeded differently on the read and the write side |
| `DelayGroup.Group.Centre` | proj/quartus/hps_isw_handoff/de1_soc_hps_0/sequencer.c:5300-5443 | Programs the taps of the centring arithmetic; both reported margins are non-negative exactly when every pin’s final offset lies inside its measured window |
| `DelayGroup.Group.AimDqs` | proj/quartus/hps_isw_handoff/de1_soc_hps_0/sequencer.c:5300-5343 | The pin whose window lies furthest right decides; the new DQS tap is in range and is off target only when the lower clamp fires |
| `DelayGroup.Group.DelayDq` | proj/quartus/hps_isw_handoff/de1_soc_hps_0/sequencer.c:5349-5379 | Every DQ tap is in range and is the clamped shift of its pin; the two margins are the least left and the least right margins over all pins |
| `DelayGroup.Group.FindLeastSkew` | proj/quartus/hps_isw_handoff/de1_soc_hps_0/sequencer.c:5300-5309 | The returned pin has the least difference of left and right edge |
| `DelayGroup.Group.FindMissingWindow` | proj/quartus/hps_isw_handoff/de1_soc_hps_0/sequencer.c:5274-5298 | The first pin with an illegal edge, or none |
| `DelayGroup.Group.SearchDmDelays` | proj/quartus/hps_isw_handoff/de1_soc_hps_0/sequencer.c:7656-7687 | The first DM sweep is the run search over the positions of all DM delays, in order |
| `DelayGroup.Group.SearchDqsDelays` | proj/quartus/hps_isw_handoff/de1_soc_hps_0/sequencer.c:7689-7730 | After the second sweep, wherever it stopped, the best run recorded is the best of the whole axis |
| `DelayGroup.LeftEdgesSeen` | proj/quartus/hps_isw_handoff/de1_soc_hps_0/sequencer.c:5138-5174 | After any number of DQ delays the edges of a bit say where it passed: nowhere, or between its outermost passing positions |
| `DelayGroup.RightEdgesSeen` | proj/quartus/hps_isw_handoff/de1_soc_hps_0/sequencer.c:5202-5260 | The same after the DQS sweep, whatever edges the first sweep left |
| `DelayGroup.SweepsMeasureHull` | proj/quartus/hps_isw_handoff/de1_soc_hps_0/sequencer.c:5130-5260 | The edges a pin ends with are its outermost passing positions, wherever the two sweeps stopped, on the read and on the write side |
| `DelayGroup.StoppingIsSafe` | proj/quartus/hps_isw_handoff/de1_soc_hps_0/sequencer.c:5144-5157 | A sweep that stops when all bits fail after all have passed misses nothing if every pin has one window |
| `DelayGroup.EdgesAreExact` | proj/quartus/hps_isw_handoff/de1_soc_hps_0/sequencer.c:5130-5298 | Then the measured edges are those of the window over the whole range of the delay chains |
| `DelayGroup.ReadCentring` | proj/quartus/hps_isw_handoff/de1_soc_hps_0/sequencer.c:5311-5366 | On the read side the lower DQ clamp never fires, and the margins are balanced exactly under a condition on the pin’s skew |
| `DelayGroup.WriteCentring` | proj/quartus/hps_isw_handoff/de1_soc_hps_0/sequencer.c:7424-7478 | On the write side the upper DQ clamp never fires, and the margins are balanced exactly when the centre is not right of the strobe |
| `DelayGroup.CloseCentresBalance` | proj/quartus/hps_isw_handoff/de1_soc_hps_0/sequencer.c:5300-5443 | Windows with centres at most one DQ delay chain apart all end balanced, with DQ and DQS margins not negative |
| `DelayGroup.LeftWindowsBalance` | proj/quartus/hps_isw_handoff/de1_soc_hps_0/sequencer.c:7413-7491 | On the write side all windows centred at or left of the strobe end balanced |
| `DelayGroup.DeskewVerdict` | proj/quartus/hps_isw_handoff/de1_soc_hps_0/sequencer.c:5274-5443 | With one window per pin the outcome of a deskew is exact: which pins have no window, and whether all pass at the final taps |
| `DelayGroup.DeskewedPinPasses` | proj/quartus/hps_isw_handoff/de1_soc_hps_0/sequencer.c:5352-5379 | The final offset of a pin stays on the axis that was swept, so its window decides whether it passes |
| `DelayGroup.SearchIsExhaustive` | proj/quartus/hps_isw_handoff/de1_soc_hps_0/sequencer.c:7656-7730 | The two DM sweeps joined at zero search the whole axis, also when the second stops early |
| `DelayGroup.SearchMayStop` | proj/quartus/hps_isw_handoff/de1_soc_hps_0/sequencer.c:7724-7727 | With fewer positions left than the best run is long no later run can win |
| `DelayGroup.SearchResult` | proj/quartus/hps_isw_handoff/de1_soc_hps_0/sequencer.c:7732-7758 | The best run is the leftmost longest passing run, and there is none exactly when nothing passes |
| `DelayGroup.OnlyWindowIsBest` | proj/quartus/hps_isw_handoff/de1_soc_hps_0/sequencer.c:7656-7730 | If the passing settings form one interval it is the run found |
| `DelayGroup.HalfUp` | proj/quartus/hps_isw_handoff/de1_soc_hps_0/sequencer.c:5311-5316 | Half of the skew, rounded towards a later strobe |
| `DelayGroup.Saturate` | proj/quartus/hps_isw_handoff/de1_soc_hps_0/sequencer.c:5359-5365 | The shift corrected so that the tap ends at the nearest value in range |
| `CInt.Quot` | proj/quartus/hps_isw_handoff/de1_soc_hps_0/sequencer.c:5355 | C’s division truncates toward zero: the quotient for positive and for negative numerators |
| `Calibration.Run.MemCalibrate` | proj/quartus/hps_isw_handoff/de1_soc_hps_0/sequencer.c:9149-9437 | A run succeeds exactly when all stages of its plan pass, each after those before it, whatever the sweep-all flag; then it has made those calls and no others. A failed run has made the calls up to the first to fail, without sweep-all no more, and has an error stage recorded |
| `Calibration.Setup.RunPlanExact` | proj/quartus/hps_isw_handoff/de1_soc_hps_0/sequencer.c:9205-9437 | The plan has, in every repeat, VFIFO and the read deskew after the writes for all read groups of every write group not fully masked, write centring for its shadow sets not skipped, LFIFO when no group is skipped, and nothing else |
| `Calibration.RunExact` | proj/quartus/hps_isw_handoff/de1_soc_hps_0/sequencer.c:9149-9437 | For every memory, whose stages may depend on all that was called before: verdict and calls of a run, with and without sweep-all, from the plan alone |
| `Calibration.FollowMeans` | proj/quartus/hps_isw_handoff/de1_soc_hps_0/sequencer.c:9239-9437 | Following a plan up to the first failure makes all its calls and all pass, or ends with the first that fails |
| `Calibration.Setup.RunFollows` | proj/quartus/hps_isw_handoff/de1_soc_hps_0/sequencer.c:9205-9437 | Without sweep-all the nested early exits of stages, groups and repeats come to following the plan |
| `Calibration.Run.CalibrateGroups` | proj/quartus/hps_isw_handoff/de1_soc_hps_0/sequencer.c:9205-9403 | Groups are attempted until the first failure, or all of them when sweeping; the verdict is that of all attempted groups |
| `Calibration.Run.CalibrateGroup` | proj/quartus/hps_isw_handoff/de1_soc_hps_0/sequencer.c:9239-9321 | One group goes through VFIFO, writes and the read deskew after them, up to the first that fails |
| `Calibration.Run.CalibrateReads` | proj/quartus/hps_isw_handoff/de1_soc_hps_0/sequencer.c:9239-9253 | The read stage of the group’s read groups in order, up to the first that fails |
| `Calibration.Run.CalibrateWrites` | proj/quartus/hps_isw_handoff/de1_soc_hps_0/sequencer.c:9272-9302 | Write centring of the shadow sets not skipped: up to the first failure, or with sweep-all of every set; it fails exactly when one of those called does |
| `Calibration.Run.SetFailingGroupStage` | proj/quartus/hps_isw_handoff/de1_soc_hps_0/sequencer.c:591-605 | The error fields take a failure only if none has been recorded since the reset |
| `Calibration.ReadRangesTile` | proj/quartus/hps_isw_handoff/de1_soc_hps_0/sequencer.c:9239-9241 | The ranges w*R/W up to (w+1)*R/W own every read group exactly once, and no other |
| `Calibration.Setup.NextRunGroups` | proj/quartus/hps_isw_handoff/de1_soc_hps_0/sequencer.c:9206-9232 | The low bits of the shifting run_groups word are set exactly when some read group of the write group is not skipped |
| `Calibration.Setup.RunSwept` | proj/quartus/hps_isw_handoff/de1_soc_hps_0/sequencer.c:9149-9437 | Sweep-all leaves the verdict alone, and only adds calls behind those of a failed run without it |
| `Calibration.SweepKeepsFirstFailure` | proj/quartus/hps_isw_handoff/de1_soc_hps_0/sequencer.c:9149-9437 | Verdict and recorded failure are the same with and without sweep-all |
| `Calibration.RetriedFailureStaysRecorded` | proj/quartus/hps_isw_handoff/de1_soc_hps_0/sequencer.c:591-605 | A stage that reports a failure, retries and passes leaves the error fields set although the run succeeds |
| `Calibration.FirstHasStage` | proj/quartus/hps_isw_handoff/de1_soc_hps_0/sequencer.c:591-605 | The error stage is NIL only as long as nothing was reported |
| `DqsEnable.Memory.FindDqsEnPhase` | proj/quartus/hps_isw_handoff/de1_soc_hps_0/sequencer.c:4043-4617 | Whatever the read tests answer: on success the middle of the window found is positive, the programmed taps are in range and nearest to it up to whole VFIFO cycles, no sum overflows, and the last read passed. In a memory with one window, anywhere, of four phase taps up to the VFIFO round less three cycles: it succeeds, locates both edges to within a delay tap (worse where phase 0 hides the beginning) and ends that near to the middle |
| `DqsWindow.FirstInWindow` | proj/quartus/hps_isw_handoff/de1_soc_hps_0/sequencer.c:4143-4192 | The first setting that passes is the first usable phase of the window |
| `DqsWindow.PhaseOneExactly` | proj/quartus/hps_isw_handoff/de1_soc_hps_0/sequencer.c:4204-4219 | It is phase 1 exactly when the window begins behind the last phase of a cycle and not behind phase 1 |
| `DqsWindow.BeginRefined` | proj/quartus/hps_isw_handoff/de1_soc_hps_0/sequencer.c:4198-4235 | Backing off a phase and going up by delay taps finds the beginning to within a delay tap |
| `DqsWindow.EdgeAtEnd` | proj/quartus/hps_isw_handoff/de1_soc_hps_0/sequencer.c:4310-4401 | The last usable phase before the first failing one lies in the window, at most two phase taps before its end |
| `DqsWindow.EndRefined` | proj/quartus/hps_isw_handoff/de1_soc_hps_0/sequencer.c:4427-4442 | Going on from there by delay taps finds the end to within a delay tap, if the delay chain spans two phase taps |
| `DqsWindow.TwoFail` | proj/quartus/hps_isw_handoff/de1_soc_hps_0/sequencer.c:4121-4141 | A window that leaves three cycles of the VFIFO round out has two failing reads among sixteen pushes |
| `DqsWindow.RoundFinds` | proj/quartus/hps_isw_handoff/de1_soc_hps_0/sequencer.c:4143-4192 | A window of two phase taps or more is found without delay taps in one round of the VFIFO |
| `DqsWindow.MiddleOf` | proj/quartus/hps_isw_handoff/de1_soc_hps_0/sequencer.c:4552-4580 | The taps nearest to the measured middle lie in the window and near its middle |
| `DqsTaps.NearestTaps` | proj/quartus/hps_isw_handoff/de1_soc_hps_0/sequencer.c:4561-4580 | For a time within one cycle, the least position not before it, or phase 1 and delay 0 when that would need phase 0 |
| `DqsTaps.NearestError` | proj/quartus/hps_isw_handoff/de1_soc_hps_0/sequencer.c:4561-4580 | The position programmed exceeds the middle by less than a delay tap, except out of phase 0, by less than a phase tap |
| `DqsTaps.NearestIsUnique` | proj/quartus/hps_isw_handoff/de1_soc_hps_0/sequencer.c:4561-4580 | Only one pair of taps is nearest |
| `DqsTaps.WithinCycle` | proj/quartus/hps_isw_handoff/de1_soc_hps_0/sequencer.c:4552-4560 | Whole cycles are taken off a positive time, leaving a positive one of at most a cycle |
| `DqsEnable.Memory.TwoFailures` | proj/quartus/hps_isw_handoff/de1_soc_hps_0/sequencer.c:4121-4141 | The VFIFO is pushed until two reads have failed, and it gives up only if at most one of sixteen fails |
| `DqsEnable.Memory.FindBegin` | proj/quartus/hps_isw_handoff/de1_soc_hps_0/sequencer.c:4143-4192 | The first setting that passes, in the order phases, cycles, delays, never phase 0: all before it in the first round failed; the beginning is its time |
| `DqsEnable.Memory.BackOff` | proj/quartus/hps_isw_handoff/de1_soc_hps_0/sequencer.c:4198-4235 | The beginning moves to the first delay tap of the phase before that passes, all earlier ones having failed, and stays if none does |
| `DqsEnable.Memory.FindEnd` | proj/quartus/hps_isw_handoff/de1_soc_hps_0/sequencer.c:4310-4401 | The first usable phase to fail, all between having passed; the beginning moves when the very first tried fails; back to the last usable phase before; gives up only if all phases passed |
| `DqsEnable.Memory.EndInDelays` | proj/quartus/hps_isw_handoff/de1_soc_hps_0/sequencer.c:4427-4442 | The end moves on to the last delay tap before the first that fails |
| `DqsTaps.DelayTapsPerPhase` | proj/quartus/hps_isw_handoff/de1_soc_hps_0/sequencer.c:4079-4089 | The most delay taps that are shorter than a phase tap; no more than there are |
| `DqsTaps.BoardClear` | proj/quartus/hps_isw_handoff/de1_soc_hps_0/sequencer_defines.h:88-96 | This board’s taps meet the requirements; its windows may be 1248 to 32448 time units long |
| `IdleDelay.Delay` | proj/quartus/hps_isw_handoff/de1_soc_hps_0/sequencer.c:2019-2088 | The counters fit 8, 8 and 16 bits, and running the microprogram with them idles at least the clocks wanted and less than a quantum more: none, 256 or 65536 |
| `IdleDelay.NestedLoops` | proj/quartus/hps_isw_handoff/de1_soc_hps_0/sequencer.c:2049-2086 | Two nested jnz loops execute the waiting instruction (inner + 1) * (outer + 1) times |
| `IdleDelay.SingleLoop` | proj/quartus/hps_isw_handoff/de1_soc_hps_0/sequencer.c:2049-2070 | One jnz loop executes it inner + 1 times |
| `IdleDelay.AfiClocksExact` | proj/quartus/hps_isw_handoff/de1_soc_hps_0/sequencer.c:2028 | Scaled up again the clocks are enough exactly when the rounding does not overflow 32 bits, and then less than one clock too many |
| `IdleDelay.CountersFor` | proj/quartus/hps_isw_handoff/de1_soc_hps_0/sequencer.c:2030-2047 | The counters fit their registers for every number of clocks |
| `DebugHandshake.ExactlyOnce` | proj/quartus/hps_isw_handoff/de1_soc_hps_0/tclrpt.c:578-1022 | Under every interleaving of single loads and stores commands are executed in the order posted, each exactly once with the parameters it was posted with; none is lost or invented; parameters and answers are those of sequential execution |
| `DebugHandshake.RunConsistent` | proj/quartus/hps_isw_handoff/de1_soc_hps_0/tclrpt.c:578-1022 | Every reachable state keeps the invariant that ties both program points, the shared words and the logs together |
| `DebugHandshake.DeviceKeepsConsistent` | proj/quartus/hps_isw_handoff/de1_soc_hps_0/tclrpt.c:656-1022 | Every step of the command loop keeps it |
| `DebugHandshake.HostKeepsConsistent` | proj/quartus/hps_isw_handoff/de1_soc_hps_0/tclrpt.c:613-672 | Every step of the host keeps it |
| `DebugHandshake.PollKeepsStep` | proj/quartus/hps_isw_handoff/de1_soc_hps_0/tclrpt.c:613-682 | Marking the interface ready, command word first, keeps the loop in step with a waiting host |
| `DebugHandshake.ExecuteKeepsConsistent` | proj/quartus/hps_isw_handoff/de1_soc_hps_0/tclrpt.c:672-1022 | Executing the pending command gives the parameters one more sequential execution would |
| `DebugHandshake.LoopServesHost` | proj/quartus/hps_isw_handoff/de1_soc_hps_0/tclrpt.c:656-1022 | While the host waits its polling changes nothing, and every step of a loop that has not exited brings the awaited status nearer |
| `DebugHandshake.EveryWaitEnds` | proj/quartus/hps_isw_handoff/de1_soc_hps_0/tclrpt.c:656-1022 | From any reachable state with a waiting host and a running loop, every continuation with enough loop steps has a point where the wait is over: the interface is ready, or the last command posted has been executed and its answer is out |
| `DebugHandshake.StatusFirstLosesCommand` | proj/quartus/hps_isw_handoff/de1_soc_hps_0/tclrpt.c:615-621 | With the two stores swapped a command posted between them is overwritten |
| `DebugHandshake.LostForGood` | proj/quartus/hps_isw_handoff/de1_soc_hps_0/tclrpt.c:615-621 | ... and never executed, however the run goes on |
| `PpcOperands.OperandRoundTrip` | sw/hps/spl_bsp/uboot-socfpga/common/bedbug.c:854-918 | An operand is printed as the number it was typed as exactly when that number fits its field |
| `PpcOperands.ReachableRange` | sw/hps/spl_bsp/uboot-socfpga/common/bedbug.c:865-879 | An address operand fits exactly when the distance is a multiple of four in the signed range of the field |
| `PpcOperands.DistanceOfData` | sw/hps/spl_bsp/uboot-socfpga/common/bedbug.c:261-275 | The distance rebuilt from a packed address operand is the original exactly when it is reachable |
| `PpcOperands.SwapHalvesTwice` | sw/hps/spl_bsp/uboot-socfpga/common/bedbug.c:490-559 | Exchanging the five-bit halves of a register number twice gives its ten low bits |
| `PpcOperands.PackFits` | sw/hps/spl_bsp/uboot-socfpga/common/bedbug.c:917 | A packed operand lies in its field and unpacks to its masked value |
| `PpcOperands.Info` | sw/hps/spl_bsp/uboot-socfpga/include/bedbug/tables.h:14-50 | Every operand’s bits and shift lie within a 32-bit word |
| `PpcAssembler.Assemble` | sw/hps/spl_bsp/uboot-socfpga/common/bedbug.c:785-841 | Succeeds exactly when there is a number for every written operand and each parses; then the opcode is intact, every operand is in place and other fields are clear; otherwise it names the first operand that fails and why |
| `PpcAssembler.AssembledReadsBack` | sw/hps/spl_bsp/uboot-socfpga/common/bedbug.c:373-400 | The assembled word matches its opcode, silent operands read as the opcode has them, and every other operand is read back, and printed as typed exactly when it fits |
| `PpcAssembler.GetOperandValue` | sw/hps/spl_bsp/uboot-socfpga/common/bedbug.c:373-400 | Returns an operand’s value exactly when the instruction has that operand |
| `PpcAssembler.FindOpcode` | sw/hps/spl_bsp/uboot-socfpga/common/bedbug.c:417-440 | Never returns an entry that does not match; in a table ordered for the word it finds the only matching entry, or there is none |
| `PpcAssembler.SortedIsOrdered` | sw/hps/spl_bsp/uboot-socfpga/include/bedbug/tables.h:56-66 | In a table sorted by opcode, with one mask for each primary opcode, every word sees the entries in order |
| `PpcStepper.FindNextAddress` | sw/hps/spl_bsp/uboot-socfpga/common/bedbug.c:1053-1236 | With such a table: fails exactly when no entry matches, never for a branch, and otherwise stops where the decision, target and step-over rule of the decoded branch say; for properly used branches with a handled encoding, and for all other instructions, that is the address the architecture executes next, or the one behind a call stepped over |
| `PpcStepper.StepRefinesIsa` | sw/hps/spl_bsp/uboot-socfpga/common/bedbug.c:1160-1236 | For an unconditional branch or a BO encoding without bits in unhandled places, with aligned LR or CTR, the branch is taken when the architecture takes it and the step stops at the address it executes next |
| `PpcStepper.StepExact` | sw/hps/spl_bsp/uboot-socfpga/common/bedbug.c:1160-1214 | A conditional branch is stepped correctly for every register state exactly when its BO encoding is one of those, or it branches to the next instruction anyway |
| `PpcStepper.MissedBranch` | sw/hps/spl_bsp/uboot-socfpga/common/bedbug.c:1160-1214 | For any other conditional branch there are registers for which the step stops elsewhere |
| `PpcStepper.SteppedBranch` | sw/hps/spl_bsp/uboot-socfpga/common/bedbug.c:1112-1126 | Stepping an assembled b, bl, ba or bla stops at the target typed exactly when the field can hold it |
| `PpcStepper.FoundEntry` | sw/hps/spl_bsp/uboot-socfpga/common/bedbug.c:1084-1158 | The table entry found for a branch is the row of that branch, and for other words no branch |
| `PpcStepper.DecisionRight` | sw/hps/spl_bsp/uboot-socfpga/common/bedbug.c:1160-1214 | The table of upper BO bits is the architecture’s rule for handled encodings; for the others the branch is never taken |
| `PpcStepper.DisplacementIsExtS` | sw/hps/spl_bsp/uboot-socfpga/common/bedbug.c:1105-1123 | The debugger’s wrap-around arithmetic computes the architecture’s sign extension |
| `PpcStepper.DecodeBranch` | sw/hps/spl_bsp/uboot-socfpga/common/bedbug.c:1093-1158 | The operands gathered are those of the branch the word is |
| `PpcStepper.Take` | sw/hps/spl_bsp/uboot-socfpga/common/bedbug.c:1160-1216 | The decision computed from the decoded operands is that of the instruction word and registers |
| `Floppy.Reader.ReadData` | sw/hps/spl_bsp/uboot-socfpga/common/cmd_fdc.c:428-549 | Success means all blocks are in the buffer, in order; in any case the blocks delivered are, and nothing behind the space for all of them is written; the commands issued follow the retry rules; it fails exactly when a command is refused or at the 25th broken transfer |
| `Floppy.PlacesAreBlocks` | sw/hps/spl_bsp/uboot-socfpga/common/cmd_fdc.c:277-281 | Block numbers and places (track, head, sector) correspond one to one |
| `Floppy.AddressExact` | sw/hps/spl_bsp/uboot-socfpga/common/cmd_fdc.c:277-296 | A command, whose track is one byte, addresses the block itself exactly when it lies on the first 256 tracks |
| `Floppy.TracksWrap` | sw/hps/spl_bsp/uboot-socfpga/common/cmd_fdc.c:277-293 | Blocks 256 tracks apart are addressed alike |
| `Floppy.BlocksAreRequested` | sw/hps/spl_bsp/uboot-socfpga/common/cmd_fdc.c:428-549 | On the first 256 tracks the k-th part of the buffer is the sector of the k-th block |
| `Floppy.TrackIsBlocks` | sw/hps/spl_bsp/uboot-socfpga/common/cmd_fdc.c:467-523 | What one READ delivers is the contents of the blocks it stands for |
| `Floppy.ReadsStayOnTrack` | sw/hps/spl_bsp/uboot-socfpga/common/cmd_fdc.c:459-530 | Every READ of any run stays on one side of one track and covers consecutive blocks |
| `Floppy.ErrorsBounded` | sw/hps/spl_bsp/uboot-socfpga/common/cmd_fdc.c:490-512 | No run has more than 25 broken transfers, and the 25th is its end |
| `Floppy.CountError` | sw/hps/spl_bsp/uboot-socfpga/common/cmd_fdc.c:490-512 | The nested counters read again, recalibrate or give up by the number of broken transfers so far: every fifth, and the 25th |
| `Floppy.Reader.Recover` | sw/hps/spl_bsp/uboot-socfpga/common/cmd_fdc.c:490-543 | After a broken transfer the next READ is the same again, or follows recalibration and seek, or there is none |
| `Floppy.Reader.Round` | sw/hps/spl_bsp/uboot-socfpga/common/cmd_fdc.c:465-542 | Every round makes progress in blocks or errors and keeps buffer, counters and commands in step |
| `Floppy.Chunk` | sw/hps/spl_bsp/uboot-socfpga/common/cmd_fdc.c:459-462 | A chunk stays on its track, is empty only if nothing is left, and ends a track unless it is the last |
| `Floppy.NextChunk` | sw/hps/spl_bsp/uboot-socfpga/common/cmd_fdc.c:527-530 | After a chunk that is not the last the next one is a whole track or all that is left |
| `BootStage.Log.Stash` | sw/hps/spl_bsp/uboot-socfpga/common/bootstage.c:320-375 | Returns 0 exactly when header, records and names fit; then the buffer holds a complete stash; otherwise its size field is 0; nothing outside the size given is written; a failure is rejected by any unstash of the same size, unless that is -1 |
| `BootStage.Log.Unstash` | sw/hps/spl_bsp/uboot-socfpga/common/bootstage.c:377-443 | Succeeds exactly when the checks pass; then the stashed records follow those in the table, named by the strings in the buffer, and next_id advances by their number; otherwise nothing changes |
| `BootStage.StashUnstash` | sw/hps/spl_bsp/uboot-socfpga/common/bootstage.c:320-443 | Every record with a time comes back in order, equal but for its name, which reads as the name it was shown by |
| `BootStage.StashAccepted` | sw/hps/spl_bsp/uboot-socfpga/common/bootstage.c:388-423 | A complete stash is accepted exactly when the table has room for its records |
| `BootStage.ChecksExact` | sw/hps/spl_bsp/uboot-socfpga/common/bootstage.c:394-423 | The checks, in wrap-around arithmetic, mean that stash and records lie in bounds exactly when the header’s size does not reach beyond the address space |
| `BootStage.WrappedSizeAccepted` | sw/hps/spl_bsp/uboot-socfpga/common/bootstage.c:399-402 | A header whose size does is accepted |
| `BootStage.StashUncorrupted` | sw/hps/spl_bsp/uboot-socfpga/common/bootstage.c:425-437 | A complete stash has all its records and terminated names within the buffer |
| `BootStage.FailedRejected` | sw/hps/spl_bsp/uboot-socfpga/common/bootstage.c:388-423 | A failed stash is rejected wherever the buffer lies and whatever the state of the table, for every size but -1 |
| `BootStage.MinusOneAccepted` | sw/hps/spl_bsp/uboot-socfpga/common/bootstage.c:383-386 | With size -1 an older stash in the buffer is accepted although stashing with that size fails |
| `BootStage.MadeUpNameFits` | sw/hps/spl_bsp/uboot-socfpga/common/bootstage.c:147-157 | A name made up from a record’s number fits its 20-byte buffer |
| `BootStage.AppendData` | sw/hps/spl_bsp/uboot-socfpga/common/bootstage.c:309-318 | The pointer always advances; the data is written only if it ends within the buffer |
| `BootStage.StashEnds` | sw/hps/spl_bsp/uboot-socfpga/common/bootstage.c:364-374 | The final pointer is the size of the whole stash, and decides between the two outcomes |
| `BootStage.NameStarts` | sw/hps/spl_bsp/uboot-socfpga/common/bootstage.c:428-437 | In a run of zero-terminated names the k-th string is the k-th name |
| `BootStage.RecordRoundTrip` | sw/hps/spl_bsp/uboot-socfpga/common/bootstage.c:351-427 | A record’s 20 bytes read back as the record |
| `BootStage.HeaderRoundTrip` | sw/hps/spl_bsp/uboot-socfpga/common/bootstage.c:52-57 | A header’s 16 bytes read back as the header |
| `BootStage.Log.AddRecord` | sw/hps/spl_bsp/uboot-socfpga/common/bootstage.c:59-82 | Only the first event for an id is kept; an allocated id is the next one; ids beyond the table change nothing but the count |
| `BootStage.Log.NameRecords` | sw/hps/spl_bsp/uboot-socfpga/common/bootstage.c:428-437 | Scanning the strings names every new record by the start of its own string |
| `FlashRange.InsideExact` | sw/hps/spl_bsp/uboot-socfpga/common/cmd_flash.c:208-289 | Selections that succeed stay inside the requested range, for all ranges, exactly when no bank that ends with the address space precedes one that begins with it |
| `FlashRange.SelectionInside` | sw/hps/spl_bsp/uboot-socfpga/common/cmd_flash.c:208-289 | Without such banks a selection that succeeds is one gap-free run of sectors from the first address on, inside the range, and counted right |
| `FlashRange.RunOrdered` | sw/hps/spl_bsp/uboot-socfpga/common/cmd_flash.c:208-289 | What is chosen in a later bank lies behind what is chosen in an earlier one |
| `FlashRange.AlignedRangeCovered` | sw/hps/spl_bsp/uboot-socfpga/common/cmd_flash.c:208-289 | On contiguous banks a range from the start of a sector to the end of one succeeds with one gap-free run of sectors from its first address to its last, counted right: exactly the sectors that meet it |
| `FlashRange.LengthCovered` | sw/hps/spl_bsp/uboot-socfpga/common/cmd_flash.c:164-289 | "start +length", rounded up, chooses without a gap from the start on exactly the sectors with a byte among the length bytes: the least run of whole sectors that covers them |
| `FlashRange.RunIsMeeting` | sw/hps/spl_bsp/uboot-socfpga/common/cmd_flash.c:208-289 | On banks that do not overlap, a run inside a range and up to its end has every sector that meets the range, and no other |
| `FlashRange.FillSectRanges` | sw/hps/spl_bsp/uboot-socfpga/common/cmd_flash.c:208-289 | The arrays, the count and the return code are those of processing the banks in turn, with -1 for every bank not reached |
| `FlashRange.FillBank` | sw/hps/spl_bsp/uboot-socfpga/common/cmd_flash.c:231-285 | One bank is skipped, chosen from or rejected by where the range starts and ends in it |
| `FlashRange.TakeRight` | sw/hps/spl_bsp/uboot-socfpga/common/cmd_flash.c:256-275 | What is chosen in a bank starts where the range does, stays within it, and what is left starts right behind it |
| `FlashRange.FirstFound` | sw/hps/spl_bsp/uboot-socfpga/common/cmd_flash.c:239-255 | The first sector is the one the range starts with, if any |
| `FlashRange.LastFound` | sw/hps/spl_bsp/uboot-socfpga/common/cmd_flash.c:239-255 | The last sector is the one the range ends with, if any |
| `FlashRange.RoundUp` | sw/hps/spl_bsp/uboot-socfpga/common/cmd_flash.c:112-148 | Returns 0 with the end of a sector the address lies in, or 1 when it lies in none |
| `FlashRange.PlusLength` | sw/hps/spl_bsp/uboot-socfpga/common/cmd_flash.c:164-205 | The last address of a range given by its length, rounded up to the end of its sector |
| `FlashRange.NotInside` | sw/hps/spl_bsp/uboot-socfpga/common/cmd_flash.c:273-274 | With such banks there is a range for which a successful selection chooses sectors before its first address |
| `Eeprom.RoundTripExact` | sw/hps/spl_bsp/uboot-socfpga/common/cmd_eeprom.c:126-369 | Bytes are read back as written, whatever they are, exactly when there are none, or the range ends below 2^32 and no two of its offsets reach the same cell |
| `Eeprom.StoredOutside` | sw/hps/spl_bsp/uboot-socfpga/common/cmd_eeprom.c:200-369 | Cells outside the range keep their bytes |
| `Eeprom.Bus.Write` | sw/hps/spl_bsp/uboot-socfpga/common/cmd_eeprom.c:200-369 | The transfers tile the range, are not empty, fit the bus and cross no page or block; the result is 0 exactly when all are acknowledged, and then memory is as if every byte had been stored at its offset; a range that wraps transfers nothing |
| `Eeprom.Bus.Read` | sw/hps/spl_bsp/uboot-socfpga/common/cmd_eeprom.c:126-189 | The transfers tile the range within blocks; when all are acknowledged the buffer holds the bytes at the offsets, and otherwise nothing behind the range is touched either |
| `Eeprom.PageWriteStores` | sw/hps/spl_bsp/uboot-socfpga/common/cmd_eeprom.c:256-275 | A page write that stays in its page stores its bytes at consecutive offsets although the pointer wraps |
| `Eeprom.ChipReadLoads` | sw/hps/spl_bsp/uboot-socfpga/common/cmd_eeprom.c:140-184 | A read that stays in its block loads the bytes of consecutive offsets |
| `Eeprom.WriteLength` | sw/hps/spl_bsp/uboot-socfpga/common/cmd_eeprom.c:249-272 | Every write transfer is the longest allowed by what is left, the page and the bus |
| `Eeprom.ReadLength` | sw/hps/spl_bsp/uboot-socfpga/common/cmd_eeprom.c:163-176 | Every read transfer is the longest allowed by what is left, the block and the bus |
| `Eeprom.ClearBlocksDistinct` | sw/hps/spl_bsp/uboot-socfpga/common/cmd_eeprom.c:142-161 | Block numbers below 256 that leave the device address bits alone reach distinct cells |
| `ElfLoad.Load` | sw/hps/spl_bsp/uboot-socfpga/common/cmd_elf.c:276-301 | For any image whose segments can be copied, also over the image itself: memory ends as the last of the memories the loader goes through, headers, their number and the entry point being read as it goes |
| `ElfLoad.ImageRuns` | sw/hps/spl_bsp/uboot-socfpga/common/cmd_elf.c:276-301 | When the segments lie apart from the image these are its segments, applied in order; image and entry point stay as they were |
| `ElfLoad.SegmentsInPlace` | sw/hps/spl_bsp/uboot-socfpga/common/cmd_elf.c:276-301 | With disjoint segments apart from the image each target range then holds its file bytes and then zeros, and every other byte is unchanged |
| `ElfLoad.LastWins` | sw/hps/spl_bsp/uboot-socfpga/common/cmd_elf.c:285-298 | In general every byte is that of the last segment covering it, or as it was |
| `ElfLoad.ImageKept` | sw/hps/spl_bsp/uboot-socfpga/common/cmd_elf.c:285-298 | Loading segments apart from the image never changes the image |
| `ElfLoad.LoadSegment` | sw/hps/spl_bsp/uboot-socfpga/common/cmd_elf.c:286-296 | One header replaces its target range by file bytes and zeros, and nothing else |

## Left out

- Register access, address maps and ROM tables: replaced by tap state and oracles.
- Protocols and options not compiled for this board, write levelling, the disabled older algorithms, shadow registers
  above one in the deskew, `test_bgn` other than 0.
- DqsEnable.Memory.FindDqsEnPhase: the VFIFO has 16 places; what the delay taps measured for tracking mean is not stated.
- DelayGroup.Group.ReadDeskew: the test that stands for a read or a write test answers the same at the same taps.
- The retries inside a stage, the figure-of-merit sums and the printed reports.
- IdleDelay.Delay: counts the waiting instruction only, as the source does, not the extra instructions of outer loops; the
  mask that skips delays in simulation is taken to be all ones.
- DebugHandshake.ExactlyOnce: what the calibration commands do to the memory is not modelled, only what commands do to the
  parameters; memory is sequentially consistent; TCL report initialisation and the printing queue are absent.
- The loop of `tclrpt_loop` is compiled for other boards than this one; the handshake functions are common to them.
- Text formatting, mnemonics, symbol lookup and number parsing in bedbug: operands are numbers already read.
- PpcStepper.StepExact: CTR forms of `bcctr` that decrement, which the architecture calls invalid, are excluded.
- Floppy register polling, timeouts, interrupts, motor control; a second head select bit in the DRIVE byte.
- BootStage.Log.Unstash: the strings behind an acceptable header are taken to be terminated, as the source does; the
  buffer itself ends below the top of memory.
- The bootstage report, its sorting, and accumulated timings.
- FlashRange.FillSectRanges: a bank has at most 32768 sectors, so that the variable for its last sector holds the number.
- Parsing of addresses, bank numbers and partitions; erasing and protecting.
- The X40430 write-protect branch, FRAM and SPI variants, write delays and the I2C transport.
- ElfLoad.Load: no file size exceeds its memory size, which would ask memset for a negative length, and no bytes are
  copied onto themselves, which memcpy leaves open; segments are loaded whatever their type, as the source does; cache
  flushing is absent.
- The section-header loader, `cmd_bootm.c`, the network, display and file system commands, and the Linux programs.
