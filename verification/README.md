# YARV simulation and firmware models

Dafny models of the bit-exact reference models, simulation devices, drivers and firmware
algorithms of this repository, with proofs of what they are for. `dafny verify dfyconfig.toml`
verifies everything. Each module follows one component:

- `FftSchedule` is the reference FFT's loop nest over two buffers, with the butterfly arithmetic
  as a parameter. `Dft` and `RoundTrip` prove over any commutative ring (`Rings`) that it computes
  the discrete Fourier transform and that the inverse undoes it; `FixedPoint`, `Accuracy` and
  `Twiddles` (over `Complexes`) prove, for every SCALE mask, what the Q15 arithmetic computes, when it
  can saturate, and how far its result can be from the exact transform, down to the tolerance the
  testbench uses.
- `FftDriver` is the two-buffer driver against an engine of arbitrary latency; `Tuner` is the
  acquisition chain and hop loop that uses it, `TunerSpec` what that loop is to do, and `Decimator`
  what the chain ideally computes.
- `ListSort` is the CoreMark linked-list merge sort on heap nodes.
- `I2cSlave` holds both versions of the I2C slave and their lockstep; `I2cDevice` shows that they
  behave as a 16-register device on every legal bus waveform.
- `Uart` is the stimulus serialiser and the mid-bit decoder; `Spi` the windowed exchange;
  `Timer` the 64-bit counter behind 32-bit registers.
- `Line`, `Strcpy`, `Assembler` and `Flash` are algorithms with a simple specification.
- `Sha256` is the hash over the word functions of `Sha256Words`; `Sha256Constants` and `Primes` prove
  where its constants come from, and `Sha256Example` the digest the program gives as its example.
- `PowersOfTwo` holds shared facts about powers of two, bits and bit reversal.

Objects the source updates in place are classes; their step is tied to a function on values, and
the theorems are about runs of that function. Time, latency and back-pressure are arbitrary:
parameters, or values chosen freely at each step.

Where the code and a comment disagree the code is followed. `sim/sw/common/fft.h:56-57` says that
with every SCALE bit set no stage can overflow: `FixedPoint.FullScaleClips` is an input that does,
`FixedPoint.NeverClipsIff` says exactly when a run does, and `FixedPoint.NoStageClips` gives the
headroom within which the comment is right. `sim/sw/guitar_tuner/guitar_tuner.c:1896-1904` announces
a window as discarded and then analyses nothing while the ring is dirty. The ring is tested after
the message, though, and printing drains the receiver: a launch announced as discarded can be
analysed (`TunerSpec.UncleanLaunchAnalysed`) and a clean one passed over
(`TunerSpec.CleanLaunchPassedOver`); `TunerSpec.TestAgreesIff` says exactly when the message makes no
difference. `tuner_pump` does not wait once its 32-bit target wraps (`TunerSpec.TargetWraps`,
`TunerSpec.SliceStalls`). The line loop leaves 32 bits for long lines: `Line.LoopFitsIff` says exactly
for which. The decimator's rate and shift match for every power of two (`Tuner.SetDecim`); the program
sets no other rate.

## Model

| member | source | states |
|---|---|---|
| FftSchedule.Brev | sim/hw/fft_tb/fft_tb.cpp:206-212 | the loop over the bits reverses the low n bits of x |
| PowersOfTwo.BitRevInvolution | sim/hw/fft_tb/fft_tb.cpp:206-212 | reversing twice gives x back, for every x below 2^n |
| FftSchedule.Partition | sim/hw/fft_tb/fft_tb.cpp:230-235 | every position is the first or second input of exactly one butterfly of a pass, so the (ia, ib) pairs partition 0..n-1 |
| FftSchedule.RunButterfly | sim/hw/fft_tb/fft_tb.cpp:230-268 | one butterfly writes its two outputs to its own two slots (bit-reversed in the last pass) and disturbs no other butterfly's slots |
| FftSchedule.RunStage | sim/hw/fft_tb/fft_tb.cpp:230-269 | the inner loop leaves the whole pass in the destination buffer, whatever order the slots are written in |
| FftSchedule.RunCopy | sim/hw/fft_tb/fft_tb.cpp:224-228 | the extra pass of an odd size moves every element to its bit-reversed place and changes none |
| FftSchedule.RunPasses | sim/hw/fft_tb/fft_tb.cpp:217-270 | the two buffers swap roles each pass and the result ends in `buf`, because the number of passes is even |
| FftSchedule.ModelFft | sim/hw/fft_tb/fft_tb.cpp:214-274 | in place, `buf` becomes all butterfly passes followed by bit reversal, for every size and every butterfly arithmetic, with no access out of range |
| Dft.TransformIsDft | sim/hw/fft_tb/fft_tb.cpp:206-275 | in any commutative ring with w^(n/2) = -1, unscaled, output k is the sum of x[t] * w^(kt), in natural order, for odd and even log2n alike |
| Dft.StagesDft | sim/hw/fft_tb/fft_tb.cpp:219-269 | after each pass every block holds the DFT of a folded half: the invariant behind the theorem |
| RoundTrip.PeriodSumsToZero | sim/hw/fft_tb/fft_tb.cpp:281-299 | the powers of w over a full period cancel, for every non-zero frequency |
| RoundTrip.InverseRoot | sim/hw/fft_tb/fft_tb.cpp:242-242 | the inverse of a suitable root is a suitable root, so the inverse transform is one too |
| RoundTrip.InverseUndoesForward | sim/hw/fft_tb/fft_tb.cpp:214-274 | the transform with the inverse root undoes the forward one up to the factor n, for every input |
| FixedPoint.ClipsIffOutsideWindow | sim/hw/fft_tb/fft_tb.cpp:249-262 | the sum output clips exactly when the stage does not halve and a part of the sum is not 16-bit, the difference output exactly when a part of the product leaves the fixed window of its kind of stage |
| FixedPoint.ButterflyComputes | sim/hw/fft_tb/fft_tb.cpp:198-262 | both outputs of a butterfly, part by part: the sum, and the Q30 product rounded to Q15, ties up, halved with ties up if the stage scales, and clipped to 32767 above and -32768 below |
| FixedPoint.PartsDetermined | sim/hw/fft_tb/fft_tb.cpp:198-204 | what that says of a part admits one value only |
| FixedPoint.StageComputes | sim/hw/fft_tb/fft_tb.cpp:222-269 | in a whole pass every butterfly does that to its own two positions and its own table entry, and the pass halves exactly if bit st of the SCALE mask is set |
| FixedPoint.FullScaleSaturates | sim/hw/fft_tb/fft_tb.cpp:563-571 | a constant full-scale input with no SCALE bit set leaves bin 0 full scale, for every size: saturation, not wrap-around |
| FixedPoint.FullScaleClips | sim/sw/common/fft.h:53-59 | in the four-point transform with the program's table for 1024, a full-scale complex input clips in the first stage although every SCALE bit is set: the header's "no stage can overflow" is not true of such inputs |
| Twiddles.TableHasQuarterTurn | sim/hw/fft_tb/fft_tb.cpp:190-196 | the table built from any root whose 256th power is a quarter turn back is such a table |
| FixedPoint.NeverClipsIff | sim/hw/fft_tb/fft_tb.cpp:219-264 | for any SCALE mask, no stage of a run differs from the run without saturation if and only if every sum and product met in the latter stays in the window of its stage |
| FixedPoint.ButterflyGrowth | sim/hw/fft_tb/fft_tb.cpp:249-262 | a Q15 butterfly grows magnitude by at most 2.2 if the stage halves and to at most 2.2 above its double if not, for any twiddle of magnitude at most 32769 |
| FixedPoint.StageHeadroom | sim/hw/fft_tb/fft_tb.cpp:230-269 | inside the headroom a whole pass is the same with and without saturation, and magnitudes grow no more than that |
| FixedPoint.NoStageClips | sim/hw/fft_tb/fft_tb.cpp:198-264 | for any SCALE mask with z clear bits below log2n, inputs of magnitude m with 2^z * (m + 2.2 * log2n) <= 32767 never clip in any stage |
| FixedPoint.PartsNeverClip | sim/hw/fft_tb/fft_tb.cpp:219-264 | with every stage halving, inputs whose real and imaginary parts are at most 23154 never clip in any stage, up to 1024 points |
| FixedPoint.FirstPassInWindow | sim/hw/fft_tb/fft_tb.cpp:230-262 | with parts of at most 23170 no product of a halving first pass leaves the window, if no table entry has parts adding up to more than 46340 |
| FixedPoint.EighthTurnClips | sim/hw/fft_tb/fft_tb.cpp:230-262 | one step above, for every size from 8 on, an input with parts of 23171 clips in the first stage: 23170 is the largest such bound there |
| Accuracy.ButterflyClose | sim/hw/fft_tb/fft_tb.cpp:249-262 | one rounded butterfly, halving or not, adds a bounded error to the exact one |
| Accuracy.TransformClose | sim/hw/fft_tb/fft_tb.cpp:353-361 | for any SCALE mask the Q15 transform stays within a bound of the exact DFT divided by 2 for each stage that halves; the bound is 2.2 per stage, doubled by each stage that does not |
| Twiddles.QuantiseRounds | sim/hw/fft_tb/fft_tb.cpp:183-188 | a table part is the nearest Q15 value, ties up, clipped to 16 bits |
| Twiddles.EntryClose | sim/hw/fft_tb/fft_tb.cpp:183-196 | a quantised and clamped table entry is within a bounded distance of the root of unity, also after the conjugation of the inverse |
| Twiddles.WithinBound | sim/hw/fft_tb/fft_tb.cpp:190-275 | for every SCALE mask with s set and z clear bits below log2n, and inputs inside the headroom, each part of each bin is within 2^z * 2.2 * log2n LSB of the DFT divided by 2^s |
| Twiddles.Undivided | sim/hw/fft_tb/fft_tb.cpp:553-561 | in particular SCALE = 0 gives the undivided DFT |
| Twiddles.WithinTolerance | sim/hw/fft_tb/fft_tb.cpp:353-372 | with every SCALE bit set, real and imaginary parts are within 2.2 * log2n LSB of the DFT divided by N, hence within the test's 4 + 2 * log2n up to log2n = 20 |
| FftDriver.Engine.Access | sim/sw/common/fft.h:33-49 | whenever the engine completes, the program's page is untouched and what the engine will deliver is unchanged |
| FftDriver.Engine.FftStart | sim/sw/common/fft.h:270-274 | an accepted START shows the previous result and appends the frame just filled to the launches; a START while busy changes neither |
| FftDriver.Engine.FftSwap | sim/sw/common/fft.h:278-281 | a SWAP shows the last result; while busy it is ignored |
| FftDriver.Engine.FftWait | sim/sw/common/fft.h:286-294 | it succeeds exactly when the engine completes within the spin bound, and then the engine is idle |
| FftDriver.Engine.FftFill | sim/sw/common/fft.h:223-233 | entry i of the page becomes re[i] and im[i], or 0 without im, and the engine's result is not disturbed |
| FftDriver.Engine.FftReadAll | sim/sw/common/fft.h:242-252 | the wanted halves of every bin are copied out, also when one buffer is given twice |
| FftDriver.Engine.FftTransform | sim/sw/common/fft.h:300-310 | it succeeds exactly when the launch it waits for completes within the spin bound; then the result is the transform of the call's own input, unless an earlier launch is still running when START is written: then it is that earlier frame's transform. On failure that launch is still running and nothing is copied out |
| FixedPoint.TransformFits | sim/hw/fft_tb/fft_tb.cpp:198-202 | Q15 results are 16-bit, so the halfword stores and reads lose nothing |
| ListSort.ChainDistinct | sim/sw/coremark/eembc/core_list_join.c:499-595 | a null-terminated chain visits no node twice |
| ListSort.Append | sim/sw/coremark/eembc/core_list_join.c:567-576 | linking an element at the tail extends the merged list by exactly that element |
| ListSort.MergeRuns | sim/sw/coremark/eembc/core_list_join.c:532-577 | the pointer merge of two adjacent runs builds the stable merge of the two node sequences, node by node, while rewriting `next` in place |
| ListSort.StepAlong | sim/sw/coremark/eembc/core_list_join.c:518-527 | q is left insize nodes along, or null at the end, and psize counts the steps |
| ListSort.RunPass | sim/sw/coremark/eembc/core_list_join.c:509-583 | one pass relinks the list into the merge of all adjacent pairs of runs, null-terminated, and counts the merges |
| ListSort.MergeOrdered | sim/sw/coremark/eembc/core_list_join.c:551-565 | merging two sorted runs keeps order and keeps ties in their original order |
| ListSort.PassDoubles | sim/sw/coremark/eembc/core_list_join.c:505-590 | a pass over sorted runs of length k leaves sorted runs of length 2k |
| ListSort.MergeSort | sim/sw/coremark/eembc/core_list_join.c:499-595 | the sort terminates on every non-empty null-terminated list and every total preorder, and returns a null-terminated list of the same nodes, sorted and stable |
| ListSort.SortByIndexRestores | sim/sw/coremark/eembc/core_list_join.c:151-157 | sorting by an index that is strictly increasing along the original list gives the original list back, whatever permutation came in between |
| I2cSlave.CppSlave.Step | sim/hw/i2c_tb/i2c_tb.cpp:116-213 | one call updates every field as the step function says and returns the pull on SDA |
| I2cSlave.SvSlave.Clock | sim/i2c_slave_model.sv:78-202 | one clock computes the next state statement by statement in source order, writes the register file through its port, and matches the step function |
| I2cSlave.ResetInLockstep | sim/hw/i2c_tb/i2c_tb.cpp:108-114 | from reset the two versions agree, and register i of the sixteen holds 0x10 + i |
| I2cSlave.StepKeepsLockstep | sim/i2c_slave_model.sv:78-202 | for any line levels, legal or not, one step keeps registers, state and SDA pull equal and the pointers equal mod 16 |
| I2cSlave.RunsKeepLockstep | sim/i2c_slave_model.sv:73-202 | the same for every run, so the two pull SDA identically at every clock |
| I2cDevice.ClockOnWire | sim/i2c_slave_model.sv:105-163 | a clocked bit of any phase lengths of at least two samples has the effect of one rise and one fall |
| I2cDevice.HighestFirst | sim/i2c_slave_model.sv:107-118 | a byte is on the bus with its highest bit first |
| I2cDevice.AddressOnWire | sim/i2c_slave_model.sv:107-124 | a transfer begins with its seven address bits, highest first, then the direction, high for a read, then a released ACK slot |
| I2cDevice.BitsOnWire | sim/i2c_slave_model.sv:105-163 | a run of clocked bits, each with its own timing, gives the master the samples of the abstract bit run |
| I2cDevice.TakeByte | sim/i2c_slave_model.sv:107-114 | eight clocked bits, most significant first, assemble the byte |
| I2cDevice.SendByte | sim/i2c_slave_model.sv:115-118 | the slave puts a register's bits on SDA most significant first, stable while SCL is high |
| I2cDevice.StoredAt | sim/i2c_slave_model.sv:144-152 | after a write of any length, the register at (pointer + i) mod 16 holds the last byte whose number is i mod 16, or its old value if there is none, and the pointer is past the last byte |
| I2cDevice.SentAt | sim/i2c_slave_model.sv:153-157 | byte i of a read is register (pointer + i) mod 16, followed by its ACK slot |
| I2cDevice.AcknowledgedAt | sim/i2c_slave_model.sv:119-152 | byte i of a write goes through unchanged and its ACK slot is pulled low |
| I2cDevice.TransferMatches | sim/i2c_slave_model.sv:105-168 | after any transfer the slave holds what a 16-register device would hold and has answered as it would; other addresses change nothing |
| I2cDevice.SessionMatches | sim/i2c_slave_model.sv:90-168 | the same for any number of transfers joined by repeated STARTs and closed by a STOP, for every legal waveform |
| I2cDevice.PortMatches | sim/i2c_slave_model.sv:170-202 | from reset, the SystemVerilog slave itself answers every transfer of such a session as the abstract device would, and ends with its registers and pointer, idle, SDA released |
| Uart.UartRxDriver.Step | sim/sim_main.cpp:135-153 | one call returns the line level and advances frame, gap and pacing state as the step function says |
| Uart.TxMonitor.Tick | sim/hw/uart_tb/uart_tb.cpp:89-112 | one clock updates the decoder's globals as the step function says |
| Uart.SamplesMidBit | sim/hw/uart_tb/uart_tb.cpp:89-112 | whatever the line does after a falling edge, the decoded byte is the line in the middle of each of the eight data cells, lowest bit first |
| Uart.FrameClock | sim/hw/uart_tb/uart_tb.cpp:89-112 | inside a frame the decoder samples each bit once, at mid-bit, for every bit length of at least one clock |
| Uart.StepInSync | sim/sim_main.cpp:135-153 | serialiser and decoder stay in step through frames, gaps and back-pressure |
| Uart.MonitorRecoversBytes | sim/sim_main.cpp:135-153 | at any moment of any run the decoder has recovered the bytes shipped, in order, all of them but possibly the one still on the line, for every bit length and back-pressure schedule |
| Uart.EveryClockCounts | sim/sim_main.cpp:136-151 | every unblocked clock brings the driver closer to its end: nothing stalls |
| Uart.AllBytesArrive | sim/sim_main.cpp:124-153 | given enough unblocked clocks, all bytes have been shipped and decoded |
| Uart.WaitsIff | sim/sim_main.cpp:135-139 | between frames the driver holds the line high and takes no byte if and only if it has none left or is paced and blocked |
| Uart.FrameOnTheLine | sim/sim_main.cpp:140-152 | once begun, whatever the back-pressure, a frame is a low start bit, the byte from its lowest bit on and a high stop bit, each bitCycles clocks, then ten more high clocks, and then the driver rests with the next byte ahead |
| Uart.RunIsShipments | sim/sim_main.cpp:135-153 | at any clock of any run the driver rests, or is that far into a frame it began from rest and not held back |
| Uart.PacedTakesUnblocked | sim/sim_main.cpp:138-139 | in any run a paced driver takes a byte only at a clock that is not blocked |
| Uart.BlockedShipsNothing | sim/sim_main.cpp:138-138 | blocked throughout, a paced driver ships nothing and holds the line high |
| Uart.UnpacedIgnoresSchedule | sim/sim_main.cpp:129-138 | an unpaced run is the same under every back-pressure schedule |
| Uart.TxMonitor.RxFrame | sim/hw/uart_tb/uart_tb.cpp:186-194 | one frame driven bit by bit onto the decoder's line makes it record that byte |
| Uart.TxMonitor.RxBurst | sim/hw/uart_tb/uart_tb.cpp:184-194 | frames driven onto the decoder's line back to back, without a gap, are all recovered in order |
| Spi.EngineKeepsExchange | sim/sw/common/spi.h:18-21 | each engine step keeps pushed - popped = TX + in-shift + RX <= 16 and keeps every byte in its place; so the RX FIFO never overruns |
| Spi.EngineRunKeepsExchange | sim/sw/common/spi.h:18-21 | the same for any number of engine steps, with the work left |
| Spi.PushKeepsExchange | sim/sw/common/spi.h:159-163 | pushing inside the window keeps the exchange in order |
| Spi.PopKeepsExchange | sim/sw/common/spi.h:164-170 | what is popped is the reply to the byte at that position |
| Spi.SpiDevice.PushWindow | sim/sw/common/spi.h:159-163 | it fills the window of sixteen, or pushes all that is left, without ever finding it exceeded, and always makes progress past popped |
| Spi.SpiDevice.PopReply | sim/sw/common/spi.h:164-170 | the poll ends under fairness and pops the next reply in order, whatever the engine does between the last poll and the pop |
| Spi.SpiDevice.SpiTransferBuf | sim/sw/common/spi.h:153-176 | under every interleaving the wire carries exactly tx, or bytes of 255 if it is null; rx[i] is the reply to what had gone out before byte i; nothing else of rx changes, no overrun; it ends for every length, rx may be null or the same buffer |
| Decimator.CombsAreTriangle | sim/sw/guitar_tuner/guitar_tuner.c:606-616 | two combs over two integrators equal the triangular moving sum of the latest 2R - 1 samples |
| Decimator.WrapAdds | sim/sw/guitar_tuner/guitar_tuner.c:580-584 | wrapping operands first does not change a wrapped sum or difference |
| Decimator.DecimatedFits | sim/sw/guitar_tuner/guitar_tuner.c:618-623 | the filter's gain is at most R * R, so after the shift 16-bit samples stay 16-bit |
| Decimator.DecimatedRoundsDown | sim/sw/guitar_tuner/guitar_tuner.c:618-623 | the shift rounds down, and at R = 1 the filter is the identity |
| Decimator.UnitGain | sim/sw/guitar_tuner/guitar_tuner.c:618-623 | a constant input comes out unchanged |
| Decimator.MeetsTransferFunction | sim/sw/guitar_tuner/guitar_tuner.c:156-159 | 256 * (y - (s - x1)) lies between 255 times the output before and 255 more: the documented y[n] = x[n] - x[n-1] + (1 - 2^-8) * y[n-1] up to rounding |
| Decimator.OutputIsSampleLessLeak | sim/sw/guitar_tuner/guitar_tuner.c:625-628 | over any run from rest the output is the latest sample less the sum of the earlier outputs' whole 256ths |
| Decimator.StepComesThrough | sim/sw/guitar_tuner/guitar_tuner.c:625-634 | a step of any height from rest comes out at that height, clamped to 16 bits |
| Decimator.BlockerStaysBounded | sim/sw/guitar_tuner/guitar_tuner.c:625-628 | -32767 <= y - s <= 32768 is kept by every step, hence no overflow before the clamp |
| Decimator.BlockerAtBounded | sim/sw/guitar_tuner/guitar_tuner.c:625-634 | that bound holds in every run from the zero state |
| Decimator.ConstantDiesOut | sim/sw/guitar_tuner/guitar_tuner.c:156-166 | a constant level decays by at least one a step to a residue between 0 and 255, which then stays for ever |
| Tuner.SetDecim | sim/sw/guitar_tuner/guitar_tuner.c:343-353 | the shift divides the gain out exactly when R is a power of two; otherwise it is at most the gain and more than a quarter of it |
| Tuner.Tuner.Comb | sim/sw/guitar_tuner/guitar_tuner.c:613-616 | computed on wrapped 32-bit values, the output equals the exact triangular sum, for ever |
| Tuner.Tuner.PushInput | sim/sw/guitar_tuner/guitar_tuner.c:590-641 | every input keeps the state equal to the ideal chain: filter, DC blocker, ring and dirty count; an output appears every R inputs |
| Tuner.Tuner.WindowIsLatest | sim/sw/guitar_tuner/guitar_tuner.c:636-640 | read from the write position, the ring is the last 1024 outputs, oldest first; dirty is 0 exactly when every logged loss is at least 1024 outputs old, and then so is every overrun seen by either path |
| Tuner.Tuner.Drain | sim/sw/guitar_tuner/guitar_tuner.c:657-671 | it takes whatever has arrived, and logs a loss exactly when an overrun went up meanwhile |
| Tuner.Tuner.Pump | sim/sw/guitar_tuner/guitar_tuner.c:675-699 | it waits for exactly n outputs if the 32-bit count plus n does not wrap, and reads nothing at all if it does; it logs a loss at exactly the words whose overrun flag is up |
| TunerSpec.TargetWraps | sim/sw/guitar_tuner/guitar_tuner.c:675-679 | the waiting loop is entered exactly when n is positive and the 32-bit target does not wrap |
| TunerSpec.SliceStalls | sim/sw/guitar_tuner/guitar_tuner.c:675-679 | after 2^32 - 64 outputs the next slice of a hop waits for nothing |
| TunerSpec.WeightIsSymmetric | sim/sw/guitar_tuner/guitar_tuner.c:705-738 | the analysis window is symmetric, starts at 0, steps by 64, and stays below the clamp |
| TunerSpec.ShiftedIsTop | sim/sw/guitar_tuner/guitar_tuner.c:660-663 | a 24-bit word loses its low eight bits, rounding down, and becomes a 16-bit sample |
| TunerSpec.WindowedRoundsDown | sim/sw/guitar_tuner/guitar_tuner.c:727-738 | each sample is weighted in Q15, rounding down, and the imaginary part is 0 |
| Tuner.Tuner.FillFft | sim/sw/guitar_tuner/guitar_tuner.c:712-739 | the engine's page becomes the windowed ring, oldest first; the clamp and the 16-bit store lose nothing, and the engine's result is not disturbed |
| Tuner.Tuner.RunHops | sim/sw/guitar_tuner/guitar_tuner.c:1854-1971 | over any number of hops and any engine latency: the engine is given exactly the windowed ring as it stood at each launch, one launch per successful wait after the first; a wait fails only if that launch outlasts the spin bound; the overrun flag is up at a launch exactly when a loss was logged since the launch before; launch k > 0 is analysed exactly when the ring is clean at its test, which comes at the launch itself unless that flag is up, and what is analysed is the transform of the frame of launch k - 1; with no overrun every launch after the first is analysed |
| TunerSpec.CleanMeansNoOverrun | sim/sw/guitar_tuner/guitar_tuner.c:413-422 | at a moment when the ring is clean no overrun was heard within the last 1024 outputs |
| Tuner.Tuner.Yield | sim/sw/guitar_tuner/guitar_tuner.c:1221-1236 | printing or a display push drains the receiver any number of times, and logs a loss if and only if an overrun went up meanwhile |
| Tuner.Tuner.PrintOverrun | sim/sw/guitar_tuner/guitar_tuner.c:1900-1903 | with the flag up it is taken down and the message is printed before the ring is tested; with it down the test sees the ring of the launch |
| TunerSpec.TestAgreesIff | sim/sw/guitar_tuner/guitar_tuner.c:1900-1906 | the ring is as clean at the test as at the launch if and only if the flag was down, or no loss was noted in the print and the dirty count did not run out in it, or one was and a whole ring came behind it just in case the launch was clean |
| TunerSpec.ShortMessage | sim/sw/guitar_tuner/guitar_tuner.c:1900-1906 | for a message of less than a ring: a clean launch is passed over exactly if a loss was noted in the print, an unclean one analysed exactly if none was and its dirty count ran out |
| TunerSpec.UncleanLaunchAnalysed | sim/sw/guitar_tuner/guitar_tuner.c:1900-1906 | an overrun while priming, and a second launch that is announced as discarded, unclean at the launch, clean at the test, and analysed |
| TunerSpec.CleanLaunchPassedOver | sim/sw/guitar_tuner/guitar_tuner.c:1900-1906 | the converse: a clean launch whose message takes in an overrun is passed over |
| Tuner.Tuner.Hop | sim/sw/guitar_tuner/guitar_tuner.c:1875-1969 | one pass waits for at least 256 outputs and, if the engine is done, launches the next window, prints an overrun message if one is due, and then analyses the previous window if and only if the ring is clean by then; text and display drain the receiver wherever they are written |
| Line.NextPoint | sim/sw/common/ssd1306.h:266-274 | the two tests on the error term take each coordinate to its next nearest value, in every octant |
| Line.WithinHalfAPixel | sim/sw/common/ssd1306.h:254-276 | every point satisfies 2 * abs(i * dy - j * dx) <= max(dx, dy) |
| Line.TieGoesDown | sim/sw/common/ssd1306.h:266-274 | half way between two pixels the shorter axis has not moved yet |
| Line.StartAndEnd | sim/sw/common/ssd1306.h:254-276 | the points start at (x0, y0) and end at (x1, y1) |
| Line.InsideTheBox | sim/sw/common/ssd1306.h:254-276 | no point oversteps either endpoint |
| Line.PointsAreDistinct | sim/sw/common/ssd1306.h:254-276 | the max(dx, dy) + 1 points are all different, so the end is not met early |
| Line.BackwardsUnlessTied | sim/sw/common/ssd1306.h:254-276 | drawn from the other end the line meets the same points except exactly where the ideal line passes half way between two pixels |
| Line.ErrorFits | sim/sw/common/ssd1306.h:260-274 | with sides of less than a third of 2^31 no value the loop computes leaves 32 bits: the sides, the error term, its double, and the error term after either or both updates |
| Line.LoopFitsIff | sim/sw/common/ssd1306.h:256-274 | for every line, no value the loop computes leaves 32 bits if and only if its sides meet explicit bounds: with g their greatest common divisor and u, v the largest multiples of g below and up to half the longer side, dx < 2^31, dx - dy + u < 2^30 and 2 * dy - dx + v <= 2^31 on flat lines, and dy < 2^31, dy - dx + u <= 2^30 and dy + u <= 2^31 on steep ones |
| Line.ResidueAttained | sim/sw/common/ssd1306.h:262-274 | every multiple of that divisor that can be the distance to the ideal line is met before the line ends |
| Line.LongHorizontalOverflows | sim/sw/common/ssd1306.h:260-266 | a horizontal line of 2^30 steps overflows at its first doubling |
| Line.Display.Pixel | sim/sw/common/ssd1306.h:207-217 | one pixel is set or cleared; coordinates off the screen are dropped |
| Line.PixelChangesOne | sim/sw/common/ssd1306.h:207-217 | no other pixel of the framebuffer changes |
| Line.PixelIsBit | sim/sw/common/ssd1306.h:211-216 | pixel (x, y) is bit y mod 8, lowest first, of byte y / 8 * 128 + x |
| Line.Display.DrawLine | sim/sw/common/ssd1306.h:254-276 | for every line on which the C arithmetic is defined, the loop ends and the framebuffer changes exactly at the points of the line |
| Strcpy.ZeroByteDetected | sim/sw/dhrystone/dhry_portme.c:133-136 | the bit trick is non-zero exactly when a byte is zero |
| Strcpy.CopyFour | sim/sw/dhrystone/dhry_portme.c:155-160 | a word without a zero byte lies wholly inside the string, so storing it equals four byte copies |
| Strcpy.Memory.CopyWords | sim/sw/dhrystone/dhry_portme.c:148-163 | every word access is aligned and none is stored past the terminator |
| Strcpy.Memory.Strcpy | sim/sw/dhrystone/dhry_portme.c:138-170 | for every alignment of disjoint buffers exactly the string and its terminator are copied and nothing else changes |
| Timer.TakenWasHeld | sim/sw/common/timer.h:86-98 | however many ticks fall between the reads, the result is a value the counter passed through during the call |
| Timer.TwoReadsTear | sim/sw/common/timer.h:88-96 | without the second read of the upper word the pair equals the counter exactly when that word did not change |
| Timer.Clint.TimerMtime | sim/sw/common/timer.h:86-98 | the driver's reading lies between the counter's values at call and return, so successive readings never go back |
| Timer.ArmStepsAreSafe | sim/sw/common/timer.h:103-110 | between the first and third write the compare value is at least 0xFFFFFFFF00000000, and after the third it is the target |
| Timer.LowFirstMisfires | sim/sw/common/timer.h:25-30 | writing the lower word first arms a value already passed exactly when the old upper word is the counter's and the new lower word is not above it |
| Timer.Clint.TimerArmUs | sim/sw/common/timer.h:103-110 | under any ticks the register ends at the target, and the interrupt was pending meanwhile only if the target was reached or the counter is in its last 2^32 values |
| Timer.Clint.TimerCancel | sim/sw/common/timer.h:113-118 | the register ends at all ones without a transient arm |
| Assembler.DecodeI | sim/sw/isa/ifault_hold/gen_hex.py:52-54 | decoding an encoded I format gives back its fields and the immediate mod 2^12, signed |
| Assembler.DecodeS | sim/sw/isa/ifault_hold/gen_hex.py:57-59 | the same for the S format |
| Assembler.DecodeB | sim/sw/isa/ifault_hold/gen_hex.py:62-65 | a branch keeps the low 13 bits of its offset without bit 0 |
| Assembler.DecodeJ | sim/sw/isa/ifault_hold/gen_hex.py:68-71 | a jump keeps the low 21 bits of its offset without bit 0 |
| Assembler.DecodeR | sim/sw/intr/wfi_trap/gen_hex.py:25-27 | the same for the R format |
| Assembler.DecodeU | sim/sw/isa/ifault_hold/gen_hex.py:74-75 | lui keeps the low 20 bits |
| Assembler.ImmediateKept | sim/sw/isa/ifault_hold/gen_hex.py:48-71 | an immediate survives exactly when it is in range, and for branches and jumps even |
| Assembler.LoadImmediateLoads | sim/sw/isa/ifault_hold/gen_hex.py:104-109 | the lui and addi pair leaves imm mod 2^32 in the register, for every imm |
| Assembler.CompressedLiLoads | sim/sw/isa/ifault_hold/gen_hex.py:112-116 | c.li decodes to its register and its signed six-bit constant |
| Assembler.EncodeMeans | sim/sw/intr/wfi_trap/gen_hex.py:183-218 | every mnemonic encodes to words that decode to that instruction, with labels resolved |
| Assembler.KnownConstants | sim/sw/isa/ifault_hold/gen_hex.py:104-116 | li and c.li give the words of the RISC-V manual for some operands |
| Assembler.KnownLoads | sim/sw/intr/wfi_trap/gen_hex.py:183-218 | so do lw and sw |
| Assembler.KnownArithmetic | sim/sw/intr/wfi_trap/gen_hex.py:183-218 | so do addi, andi, and, div |
| Assembler.KnownJumps | sim/sw/intr/wfi_trap/gen_hex.py:183-218 | so do bne and j, to a label and to an address |
| Assembler.KnownSystem | sim/sw/intr/wfi_trap/gen_hex.py:183-218 | so do csrw, csrs, csrr, wfi and mret; a data word stands for itself |
| Assembler.ResolvableIffWellFormed | sim/sw/isa/ifault_hold/gen_hex.py:165-193 | a line can be encoded if and only if its mnemonic is known and every name it uses is the label of some line |
| Assembler.LabelIsAddress | sim/sw/isa/ifault_hold/gen_hex.py:166-170 | each name stands for the first-pass address of the last line that bears it |
| Assembler.Assemble | sim/sw/isa/ifault_hold/gen_hex.py:165-193 | the run succeeds if and only if every line of the text holds a known mnemonic and uses only names that label some line; then both passes agree on every address, every line is placed there and means what it says; otherwise it fails at the first line that does not |
| Assembler.BranchReachesItsLine | sim/sw/isa/ifault_hold/gen_hex.py:179-180 | a branch goes to its label's line exactly when that is within 4 KiB |
| Assembler.JumpReachesItsLine | sim/sw/isa/ifault_hold/gen_hex.py:181-182 | a jump goes to its label's line exactly when that is within 1 MiB |
| Sha256Words.RotateMovesBits | sim/sw/sha256/sha256.c:22-25 | bit i of a rotation by n is bit (i + n) mod 32 of the argument |
| Sha256Words.Chooses | sim/sw/sha256/sha256.c:27-30 | Ch is the second word where the first is set and the third where it is not |
| Sha256Words.TakesMajority | sim/sw/sha256/sha256.c:32-35 | Maj is the first two words where they agree and the third where they do not |
| Sha256Words.BigSigma0Bits | sim/sw/sha256/sha256.c:37-42 | bit i is the sum mod 2 of bits i + 2, i + 13 and i + 22 |
| Sha256Words.BigSigma1Bits | sim/sw/sha256/sha256.c:44-49 | the same for 6, 11 and 25 |
| Sha256Words.SmallSigma0Bits | sim/sw/sha256/sha256.c:51-56 | the same for 7 and 18, and i + 3 where there is one |
| Sha256Words.SmallSigma1Bits | sim/sw/sha256/sha256.c:58-63 | the same for 17 and 19, and i + 10 where there is one |
| Sha256Constants.KIsCubeRoot | sim/sw/sha256/sha256.c:69-86 | each round constant is the first 32 fractional bits of the cube root of its prime |
| Sha256Constants.InitialIsSquareRoots | sim/sw/sha256/sha256.c:92-101 | the first hash value is those of the square roots of the first eight primes |
| Primes.EntryIsPrime | sim/sw/sha256/sha256.c:66-86 | the 64 numbers from 2 to 311 these roots are taken of are prime |
| Primes.EntriesAscend | sim/sw/sha256/sha256.c:66-86 | they ascend from 2 to 311 |
| Sha256.LengthIsBigEndian | sim/sw/sha256/sha256.c:252-263 | the eight length bytes are the 64-bit length, highest byte first |
| Sha256Example.HelloDigest | sim/sw/sha256/sha256.c:12-15 | the digest of "hello", word by word, is the one the program's header gives |
| Sha256.ExpandBlock | sim/sw/sha256/sha256.c:118-138 | the array holds the message schedule of the block |
| Sha256.RunRounds | sim/sw/sha256/sha256.c:140-175 | the eight shifting variables follow the 64 rounds |
| Sha256.Sha256Transform | sim/sw/sha256/sha256.c:107-186 | the hash state is replaced by its compression with the block |
| Sha256.HashByOneTail | sim/sw/sha256/sha256.c:222-266 | with a remainder below 56 one last block completes the padded message |
| Sha256.HashByTwoTails | sim/sw/sha256/sha256.c:237-266 | otherwise the two last blocks do |
| Sha256.Sha256 | sim/sw/sha256/sha256.c:195-270 | for every message the digest is the compression folded over the padded message, section 5.1.1, 5.2.1 and 6.2.2 of FIPS 180-4 |
| Flash.NorFlash.PageProgram | sim/sw/common/w25q.h:9-12 | an accepted program ANDs byte i in at (address + i) mod 256 of its page, wrapping at the page's end, and changes nothing else; without the latch or while busy it is ignored |
| Flash.CycleInPage | sim/sw/common/w25q.h:152-154 | a program that does not cross its page's end is the plain write of its range |
| Flash.AndedBits | sim/sw/common/w25q.h:152-154 | a programmed bit is set exactly if it was set and is set in the data |
| Flash.WrittenTwice | sim/sw/common/w25q.h:157-177 | two adjacent stretches are one |
| Flash.NorFlash.Write | sim/sw/common/w25q.h:155-178 | the split write equals the bytewise AND over the range, all other bytes unchanged, in program cycles that meet end to end and never leave their page |
| Flash.TilesCoverOnce | sim/sw/common/w25q.h:155-178 | such cycles program each byte of the range exactly once and no other byte |
| Flash.ErasedReadsBack | sim/sw/common/w25q.h:152-154 | over an erased byte any data reads back |
| Flash.ReadsBackIffNoBitSet | sim/sw/common/w25q.h:152-154 | the data reads back exactly when no bit that is set in it was clear in the flash |

## Left out

- The RTL under `src/rtl`: not part of this model; the SPI and FFT engines appear only as the
  contracts in `spi.h` and `fft.h` describe them, and what the FFT engine computes is taken to be
  the reference model's transform.
- Trigonometry: the twiddle table is built from the powers of any unit root w given as a parameter;
  the floating-point evaluation of the reference DFT is replaced by exact arithmetic over `real`.
- Masks and shifts of power-of-two size are written as remainders, quotients and products, and a
  bitwise or of bits that do not overlap (`brev`, the decoder's byte, the assembler's fields) as a
  sum; the two agree on these operands.
- The comparison functions' side effects (`cmp_complex` caches its result in the data), an empty
  list, which the code would dereference, and `core_list_reverse`, `core_list_remove` and
  `core_list_undo_remove`, which are easier than the sort. `ListSort` takes the comparison as a
  total preorder on the nodes' data.
- The 32-bit overflow of the list's run length: `insize` is unbounded here.
- I2cSlave.CppSlave.Step: the C++ slave's `reg_ptr` is an unbounded integer here; its width is
  not visible because only its low four bits are used.
- Clock stretching and bus arbitration, which neither slave implements.
- Uart.TxMonitor.RxFrame: drives the decoder's line directly; in the testbench the frame goes to the
  design's input and the decoder listens to its output, and the design is not part of this model.
- Uart.TxMonitor.RxBurst: drives the decoder's line directly, as RxFrame does.
- The BUSY-based `spi_transfer` and the chip-select framing; in `Spi` the peripheral's reply is any
  function of the bytes sent before.
- Spi.SpiDevice.PopReply: fairness is a patience counter that any run may choose; without it the
  busy-wait need not end, as the header says.
- FixedPoint.PartsNeverClip: 23154 is safe in every stage and 23171 is not in the first; which of the
  values between can clip in a later stage is not settled, short of `FixedPoint.NeverClipsIff`.
- The raw swing, the display, the pitch estimator and the overrun counter `tuner_ovr_count` of the
  tuner. `Tuner.Tuner.RunHops` speaks of the ring at the test; the analysed spectrum's own window is
  one launch older, and the code does not check that one.
- The receiver's flag is taken to go up in time to be seen after some word that is read; the words
  that were dropped are not numbered. How many words are drained while text is printed or the display
  is pushed is arbitrary.
- What the line drawing does once its 32-bit arithmetic overflows, and the display's page hash.
- 32-bit address wrap-around in `strcpy` and the 64-bit wrap-around of the timer's counter.
- Writing the assembled images to files, the lookup of register and CSR names, and the edge block.
- Erasing the flash, its status byte on the wire, and a write begun while the chip is busy.
- `memcpy`, `memset`, digest printing, GPIO, PLIC, quicksort, BCD, CRC and Dhrystone procedures:
  they would add only easy members.
