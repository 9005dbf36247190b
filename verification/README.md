# sdrgg driver model

A Dafny model of the stateful and arithmetic core of the sdrgg driver for RTL2832U receivers, with
proofs of what its parts promise.

| file | what it models |
|---|---|
| `RingSpec.dfy` | the IQ ring as one unbounded byte stream with readers at true positions; theorems about whole runs |
| `RingBuffer.dfy` | the ring as kept: 4 MB array, wrapping 32-bit positions, split copies, eight slots; each call is a step of `RingSpec` |
| `RingInterleaving.dfy` | the ring below `memcpy`: writer and consumers move single bytes and interleave freely |
| `RingTurns.dfy` | whole turns of that byte-level ring: each is one call of `RingSpec`, and a sequence of them a run |
| `SubscriberSlots.dfy` | who may use a subscriber slot, with unsubscribe split into cancel, join and release |
| `Synthesizer.dfy` | R820T frequency synthesis: candidates, spur avoidance, sigma-delta word, packed bytes, and what the bytes decode to |
| `RegisterFile.dfy` | register intents and what a list of them does to a register file |
| `Shadow.dfy` | read-modify-write from the driver's shadow, and runs with failed writes, corruption and flushes |
| `TuningPlan.dfy` | the writes behind each R820T operation, which bits they own, and runs of operations cut short anywhere |
| `DeviceRuns.dfy` | runs of operations on chip and shadow together, with corrupted registers and resets in between |
| `Tuner.dfy` | the device object: I2C gate, registers, shadow, demodulator; the driver's operations on them |
| `Bandwidth.dfy` | channel filter selection |
| `Baseband.dfy` | RTL2832U fixed-point words: resampler ratio, NCO, FIR taps |
| `Fc0012.dfy` | FC0012 divider selection, PLL ratio, tuning session and calibration |
| `UsbPipeline.dfy` | in-flight accounting of URBs, cancelling, chunked bulk reads |

`dafny verify dfyconfig.toml` checks everything.

## How the model is built

Machine words are naturals with the conversions written out (`U8`, `U16`, `U32` in `Words.dfy`);
bytes that are masked are `bv8`. Masks and shifts on 32-bit words appear as the remainders and
divisions they are. What the hardware or the kernel decides (whether a transfer succeeds, lock
status, calibration readback, which URB completes, which thread moves next) is nondeterministic.
A transfer that fails changes nothing. Fields marked ghost (`faults`, `log`, `asked`, `moved`, ..)
record what was attempted, so that a contract can say that an error has a cause and that a step was
not skipped. The log of demodulator writes leaves out those that open and close the I2C gate, which go
to page 1, register 0x01, too; what the model keeps under that address is the soft reset's value.

Numbers the driver relies on: the crystal is always 28,800,000 Hz (sdrgg_core.cpp:252,
sdrgg_rtl.cpp:701); a reader hands the ring at most one ring of bytes at a time.

## Where the code and its documentation part

* `sequence` is described as being for drop detection (sdrgg.h:66). Both the ring's and the
  pipeline's numbers count deliveries and nothing else: `UsbPipeline.SequenceHidesDrops`.
* The ring looks for lapping before it copies, not after. `RingInterleaving.TornSegment` is a run
  in which a delivered segment is not the stream's; `RingInterleaving.ExactWhileCursorBehind` is
  the condition under which it always is.
* `urb_cancel_all` sets out to reap all discarded URBs (sdrgg_usb.cpp:340). Its single pass does so
  exactly when they come back in array order (`UsbPipeline.AllReapedIff`), and it leaves
  `backpressure` as it was. `urb_free` cancels again before it frees the buffers
  (sdrgg_usb.cpp:279-287), but by then the books are empty and nothing is reaped
  (`UsbPipeline.Pipeline.CancelAndFree`).
* 948,600,000 Hz is advertised for the FC0012 (sdrgg_fc0012.cpp:633) and refused; four bands
  outside the advertised range are accepted with a ratio the chip cannot hold
  (`Fc0012.AcceptedIff`).
* 24 MHz is advertised for the R820T (sdrgg_r820t.cpp:990); the synthesiser has a candidate only
  from 27,657 kHz of LO on (`Synthesizer.Coverage`).
* Some accepted sample rates divide by zero, and which ones depends on the corrected crystal
  (sdrgg_rtl.cpp:787-800): those with `xtal % (64 * rate) * 2^20 < rate` (`Baseband.ZeroRatio`).
  Without a correction these are 225,000 and 450,000 (`Baseband.ZeroUncorrected`); at 100 ppm 450,045
  is one and 450,000 is not (`Tuner.CorrectionMovesZero`).
* The ratio sent to the demodulator is the right one only for `xtal < 32 * rate` and
  `96 * rate <= xtal < 128 * rate` (`Baseband.FaithfulRatio`). Elsewhere the rate stored is not the one
  asked for, save where it overflows 32 bits and wraps back to it (`Baseband.StoredRateIff`); an
  uncorrected crystal has no such rate, 1254 ppm has one (`Tuner.CorrectionWrapsBack`).
* The step count of the synthesiser has a byte's room, 13 to 268. Whether a target needs more can be
  told from target and reference (`Synthesizer.StepsFit`); if it does, the VCO is off by more than the
  bound (`Synthesizer.SynthesisAccuracy`). Some target does at every reference below 6581 kHz
  (`Synthesizer.AllStepsFitIff`).
* From 32768 kHz of reference on, the sigma-delta loop divides by zero for some target
  (`Synthesizer.ComputableEverywhereIff`): at 32768 kHz, for 885,025 kHz
  (`Synthesizer.DriverDividesByZero`).
* The demodulator's soft reset and the I2C gate share a register (sdrgg_rtl.cpp:334-336, 826-833), so
  a change of sample rate leaves the gate closed (`Tuner.Device.DdcReset`).
* FC0012 initialisation promises to prime the gain latch (sdrgg_fc0012.cpp:513-516) and succeeds
  even when those two writes fail (`Fc0012.Chip.Init`).

## Model

| member | source | states |
|---|---|---|
| RingSpec.NextWindow | sdrgg_ring.cpp:86-102 | from the lag modulo 2^32 alone, the next window starts at or after the reader, lies in the last ring of the stream, and starts at the reader exactly when it is not lapped, even for lags of 2^32 and more |
| RingSpec.CaughtUpOrNext | sdrgg_ring.cpp:86-121 | a reader served more than one ring behind is level with the writer afterwards; otherwise it moves on by exactly one segment in 32-bit positions |
| RingSpec.StepKeepsRing | sdrgg_ring.cpp:57-121 | any write, poll, join or leave keeps every reader's log a sequence of disjoint, ordered windows of the stream |
| RingSpec.DeliveriesAreOrderedWindows | sdrgg_ring.cpp:57-121 | after any run, each delivery is a 16384-byte window of the stream, and windows neither overlap nor go back |
| RingSpec.GaplessIffNeverLapped | sdrgg_ring.cpp:98-121 | a subscriber's windows are contiguous over a run exactly when it is never more than one ring behind when served |
| RingSpec.NeverLappedHearsTheStream | sdrgg_ring.cpp:254 | the deliveries of a subscriber never lapped, end to end, are exactly the stream from where it joined |
| RingSpec.OthersDoNotMatter | sdrgg_internal.h:181-184 | striking all steps of the other subscribers from a run changes nothing for one subscriber |
| RingSpec.DeliveriesStartOnISamples | sdrgg_ring.cpp:98-121 | with even-length writes every delivery starts on an even stream offset, catch-up and counter wrap included |
| RingBuffer.HoldsAfterWrite | sdrgg_ring.cpp:57-69 | an array laid out as the stream demands still is after a copy at the wrapped position |
| RingBuffer.WindowFromCells | sdrgg_ring.cpp:104-112 | a segment read from the wrapped position of a window in the last ring is that window |
| RingBuffer.WindowInWords | sdrgg_ring.cpp:86-102 | the 32-bit lag and catch-up position are those of the true positions |
| RingBuffer.CopyIn | sdrgg_ring.cpp:61-67 | the one or two writer copies lay the bytes down from the start cell on, continuing at cell 0, and nothing else changes |
| RingBuffer.CopyOut | sdrgg_ring.cpp:104-112 | the one or two reader copies extract the segment that continues at cell 0 |
| RingBuffer.IqRing.constructor | sdrgg_ring.cpp:33-49 | a new ring is the empty stream with no readers |
| RingBuffer.IqRing.Write | sdrgg_ring.cpp:57-70 | a write on the array and the wrapped counter is the write step on the unbounded stream |
| RingBuffer.IqRing.Fetch | sdrgg_ring.cpp:86-112 | what is copied out is the next window of the unbounded stream, or nothing when there is none |
| RingBuffer.IqRing.Deliver | sdrgg_ring.cpp:114-121 | the reader's log grows by this delivery under the current number, and its slot moves on past it |
| RingBuffer.IqRing.Poll | sdrgg_ring.cpp:85-122 | one turn of a consumer is the poll step of the unbounded ring and touches no other slot |
| RingBuffer.IqRing.Subscribe | sdrgg_ring.cpp:229-267 | the lowest free slot joins at the writer's position; busy exactly when there is none, an I/O error only when there is one; a failure leaves the ring and every slot in use as it was |
| RingBuffer.IqRing.Unsubscribe | sdrgg_ring.cpp:269-295 | the slot is free and its thread gone afterwards, other slots untouched; a bad or free handle is refused |
| RingBuffer.IqRing.Stop | sdrgg_ring.cpp:341-360 | no subscriber and no consumer is left and the stream is intact; a second stop changes nothing, slots included |
| RingInterleaving.AddressIsOffset | sdrgg_ring.cpp:61-67 | byte n of a split copy from a wrapped position goes to the cell n places on from the true position, round the end of the array |
| RingInterleaving.OriginOfPublished | sdrgg_ring.cpp:57-69 | a published byte is still in its cell exactly while its successor one lap on has not been copied |
| RingInterleaving.CopyKeepsMemory | sdrgg_ring.cpp:61-67 | each byte copied keeps every cell tied to the stream position it came from |
| RingInterleaving.PublishKeepsMemory | sdrgg_ring.cpp:69 | publishing the new position keeps every cell tied to its stream position |
| RingInterleaving.FetchKeepsReader | sdrgg_ring.cpp:104-112 | a byte read by a consumer is the stream's own or is known to come from a later lap |
| RingInterleaving.ApplyKeepsInv | sdrgg_ring.cpp:57-121 | every byte-level step keeps the invariant of memory and of all consumers |
| RingInterleaving.EveryRunKeepsInv | sdrgg_ring.cpp:57-121 | so does every interleaving |
| RingInterleaving.EveryDelivery | sdrgg_ring.cpp:86-121 | in every interleaving each delivered byte was handed to the writer for its own position or a whole number of laps later; all come from their own positions iff none was read late, and then the segment is the stream's; windows never overlap, and the n-th delivery carries the number n modulo 2^32 |
| RingInterleaving.ExactWhileCursorBehind | sdrgg_ring.cpp:98-121 | if the writer's physical cursor is within one ring of the segment's start when its last byte is out, the segment delivered is the stream's |
| RingInterleaving.TornSegment | sdrgg_ring.cpp:98-112 | a run of writes of at most 16384 bytes each in which a consumer exactly one ring behind delivers a segment that is not the stream's |
| RingTurns.LookServes | sdrgg_ring.cpp:86-102 | a waiting consumer is served exactly when the unbounded ring has a next window for it, with that window, caught up or not |
| RingTurns.TurnIsPoll | sdrgg_ring.cpp:85-122 | with no writer step in between, a look, the copying of all 16384 bytes in any order and the callback, whatever other consumers do meanwhile, leave the consumer joined, positioned and logged as one poll of the unbounded ring does |
| RingTurns.TurnIsWrite | sdrgg_ring.cpp:57-70 | the byte copies of a write, in any order, and the new position append its data to the stream and touch no consumer |
| RingTurns.AttachIsJoin | sdrgg_ring.cpp:254-256 | attaching is joining: a fresh reader at the end of the stream |
| RingTurns.TurnsAreCalls | sdrgg_ring.cpp:57-122 | any sequence of whole turns of writer and consumers, byte by byte, is the corresponding run of calls on the unbounded ring |
| SubscriberSlots.ApplyKeepsInv | sdrgg_ring.cpp:229-295 | with one unsubscriber per handle every step keeps threads, slots and unsubscribe calls consistent |
| SubscriberSlots.SlotsAreNeverShared | sdrgg_ring.cpp:229-295 | no interleaving hands out a slot whose consumer may still run, no two consumers share a slot, live handles are distinct, and a consumer is told to stop only by an unsubscribe of its handle under way |
| SubscriberSlots.SubscribeServes | sdrgg_ring.cpp:229-267 | a subscription gets the lowest free slot and a new consumer not told to stop; without a free slot or a thread every slot stays as free or taken as it was |
| SubscriberSlots.UnsubscribeFrees | sdrgg_ring.cpp:269-295 | cancel, exit, join, release end with that slot free and without a consumer, other slots, consumers and calls unchanged, whatever other calls are under way |
| SubscriberSlots.StopLeavesNoConsumer | sdrgg_ring.cpp:341-348 | stop after any disciplined run, unsubscribe calls under way or not, leaves no consumer running and no slot taken |
| SubscriberSlots.TwoUnsubscribersShareASlot | sdrgg_ring.cpp:281-292 | with two unsubscribers of one handle a slot is handed out while a consumer still runs in it |
| Synthesizer.OneOrder | sdrgg_r820t.cpp:334-338 | the VCO window is a half-open octave: no two divider orders hit it |
| Synthesizer.Coverage | sdrgg_r820t.cpp:330-338 | some order hits it exactly for 27657 <= target kHz < 1770000 |
| Synthesizer.EnumerateCandidates | sdrgg_r820t.cpp:317-359 | one candidate exactly for those targets, none otherwise, and it splits the VCO frequency exactly into whole and fractional steps |
| Synthesizer.QuantiseIsIdempotent | sdrgg_r820t.cpp:374-384 | moving (n, frac) out of the spur zones twice is moving it once |
| Synthesizer.QuantiseLeavesZones | sdrgg_r820t.cpp:368-384 | the fraction ends outside every open zone, at 0, or at the reference if it was there; it never crosses the reference, and only what lies above it goes on to the next step |
| Synthesizer.QuantiseMeaning | sdrgg_r820t.cpp:368-384 | which fractions move and where to, all five cases in whole numbers of the reference |
| Synthesizer.QuantiseMovesLittle | sdrgg_r820t.cpp:368-384 | the frequency moves by less than a 64th of the reference, either way |
| Synthesizer.QuantiseIsMonotone | sdrgg_r820t.cpp:374-384 | a higher frequency is never moved below a lower one |
| Synthesizer.NormalizeSpurAvoidance | sdrgg_r820t.cpp:362-396 | exactly the first `count` candidates are normalised in place: step count and fraction moved, 20 points for an integer solution, all else kept |
| Synthesizer.RankAndSelect | sdrgg_r820t.cpp:399-409 | the first candidate of the highest quality, none for an empty list |
| Synthesizer.PackSdm | sdrgg_r820t.cpp:428-439 | the loop, wrapping its accumulator at every step, computes the specified word whenever it divides by zero nowhere |
| Synthesizer.SdmEnds | sdrgg_r820t.cpp:432-439 | the loop ends within 15 passes: the last weight always fires |
| Synthesizer.SdmLeavesSomething | sdrgg_r820t.cpp:431-439 | the loop never takes all of a fraction, and ends before its 15th pass only with a residual of at most 1 |
| Synthesizer.SdmIsSafeIff | sdrgg_r820t.cpp:432-439 | the loop on its own is free of division by zero for every fraction exactly when the reference is below 32768 kHz |
| Synthesizer.ComputableEverywhereIff | sdrgg_r820t.cpp:317-439 | through the driver, spur avoidance included, no target leads to a division by zero exactly for references from 1 to 32767 kHz |
| Synthesizer.DriverDividesByZero | sdrgg_r820t.cpp:317-439 | at 32768 kHz the target 885,025 kHz does |
| Synthesizer.SdmNeverWraps | sdrgg_r820t.cpp:434 | no bit is added twice, so the sum fits the 16-bit accumulator, whatever the reference |
| Synthesizer.SdmAccuracy | sdrgg_r820t.cpp:427-442 | at 28,800 kHz the residual is at most 4 and the word stands for the fraction to within 4 kHz |
| Synthesizer.SdmAccuracyAtAnyReference | sdrgg_r820t.cpp:427-442 | at every reference below 32768 kHz the residual is at most 16 and the word stands for the fraction to within 16 kHz |
| Synthesizer.NiSiRoundTrip | sdrgg_r820t.cpp:418-421 | the packed byte gives n back as 4 ni + si + 13 exactly for 13 <= n <= 268 |
| Synthesizer.SynthesisAccuracy | sdrgg_r820t.cpp:317-449 | for any tunable target and any reference below 32768 kHz the chosen bytes decode to the order that hits the window, and to a VCO within a 64th of the reference of target * 2^order exactly when target * 2^order <= 536 ref + 127 ref / 64 |
| Synthesizer.ChosenSteps | sdrgg_r820t.cpp:374-421 | that is exactly when at most 268 steps are chosen |
| Synthesizer.AllStepsFitIff | sdrgg_r820t.cpp:374-421 | and so for all targets exactly from a reference of 6581 kHz on; below, 1,769,999 kHz fails |
| Synthesizer.AccurateEverywhereIff | sdrgg_r820t.cpp:317-449 | below 32768 kHz synthesis is accurate for every target exactly from 6581 kHz on |
| Synthesizer.PllWordsAccuracy | sdrgg_r820t.cpp:317-449 | at the uncorrected 28,800 kHz that is within 449 kHz for every tunable target |
| RegisterFile.IntentSeq.Clear | sdrgg_r820t_internal.h:170-172 | the list is empty |
| RegisterFile.IntentSeq.Push | sdrgg_r820t_internal.h:174-181 | an intent is appended, or refused by a full list that stays as it was |
| RegisterFile.PutBits | sdrgg_r820t.cpp:536-540 | an intent leaves bits outside its mask alone and sets those inside |
| RegisterFile.SparedBitsStay | sdrgg_r820t.cpp:527-547 | bits no intent of a list writes keep their value |
| RegisterFile.LastWriterWins | sdrgg_r820t.cpp:527-547 | bits hold what the last intent to write them wrote |
| Shadow.TrueRmwIff | sdrgg_rtl.cpp:450-466 | a shadow-based masked write is a true read-modify-write exactly when the shadow is right about the bits it keeps |
| Shadow.CarryAllIsPutAll | sdrgg_r820t.cpp:527-547 | on a coherent chip a list of intents does what it says and coherence stays |
| Shadow.CoherentWithoutCorruption | sdrgg_rtl.cpp:429-485 | over any run of writes, however many fail, shadow and chip agree, and the chip holds what the successful writes make of it |
| Shadow.ShadowRemembers | sdrgg_rtl.cpp:429-466 | over any run with failures, partial flushes and corruption, the shadow is what the driver's successful writes alone make of the registers |
| Shadow.FlushUndoesCorruption | sdrgg_reset.cpp:80-89 | a completed flush brings the tracked registers back to that, whatever was corrupted |
| Shadow.FlushedIs | sdrgg_reset.cpp:80-89 | a flush cut short has restored exactly the registers before the failure and left the shadow alone |
| TuningPlan.LnaMeaning | sdrgg_r820t.cpp:637-657 | the LNA field reads the index clamped to 0..15 in manual mode, or the old nibble under AGC; other bits stay |
| TuningPlan.MixerMeaning | sdrgg_r820t.cpp:845-858 | the mixer field likewise, its mode bit set either way |
| TuningPlan.VgaMeaning | sdrgg_r820t.cpp:860-867 | the VGA nibble reads the clamped index, bits 7 and 4 clear, others stay |
| TuningPlan.FilterMeaning | sdrgg_r820t.cpp:934-937 | a filter selection sets bit 4 of register 0x0A and all but bit 4 of register 0x0B, and leaves every other bit |
| TuningPlan.PathOfBand | sdrgg_r820t.cpp:204-290 | the path of a frequency is its tracking band's, by the table of 20 taps, with the bias and routing of the band's family |
| TuningPlan.TracesAreCalls | sdrgg_r820t.cpp:527-547 | whatever prefix of an operation's writes gets through is a call of the runs below |
| TuningPlan.RetuneSparesGains | sdrgg_r820t.cpp:294-300 | no write of a retune, lock escalation and analog profile included, touches gain or filter bits |
| TuningPlan.GainsSpareTuning | sdrgg_r820t.cpp:840-939 | no gain or filter write touches path or PLL bits |
| TuningPlan.RetunesAreInvisibleToGains | sdrgg_r820t.cpp:816-867 | over any run with failures anywhere and any reference at each retune, gain and filter bits end up as if every retune had been left out |
| TuningPlan.GainsAreInvisibleToTuning | sdrgg_r820t.cpp:840-939 | over any run of gain and bandwidth calls with failures anywhere, path and PLL bits stay |
| TuningPlan.RetuneDecodes | sdrgg_r820t.cpp:758-836 | a completed retune leaves exactly the chosen PLL words and path, escalated lock or not |
| TuningPlan.RetuneSettles | sdrgg_r820t.cpp:476-703 | and the analog profile of reception, the VCO current that lock acquisition settled for, fine-step autotune and an undivided crystal, bit by bit |
| TuningPlan.TunedAndStaysTuned | sdrgg_r820t.cpp:816-939 | at any reference below 32768 kHz, after a completed retune and any gain and bandwidth calls, the registers decode to the path and the chosen words, and to a VCO within a 64th of the reference of the target times the decoded divider exactly when the steps fit, as they do from 6581 kHz on |
| DeviceRuns.RunChipIsRunFile | sdrgg_rtl.cpp:429-466 | a run whose writes are worked out from the shadow of a coherent chip does to its registers what the run on bare registers does, and coherence lasts |
| DeviceRuns.RetunesAreInvisibleOnChip | sdrgg_r820t.cpp:816-867 | so on the device, too, gain and filter bits end up as if every retune had been left out |
| DeviceRuns.CommittedRetuneStaysTuned | sdrgg_r820t.cpp:772-939 | a completed retune of a coherent device and any gain and bandwidth calls after it leave it coherent and tuned in that sense, at any reference below 32768 kHz |
| DeviceRuns.ShadowRemembersCalls | sdrgg_rtl.cpp:429-466 | over any run of calls, corruptions and partial resets the shadow is what the calls alone make of the registers |
| DeviceRuns.ResetBringsTuningBack | sdrgg_reset.cpp:66-93 | whatever corrupts the registers after a completed retune, and however many resets fail, one complete reset leaves the device coherent and tuned again |
| Tuner.Device.Write | sdrgg_rtl.cpp:356-367 | one register changes or, on an error, none; an error has a failed transfer behind it |
| Tuner.Device.WriteReg | sdrgg_rtl.cpp:429-442 | chip and shadow change together, or neither does |
| Tuner.BitRev8Reverses | sdrgg_usb.cpp:737-742 | bit k of the result is bit 7 - k of the argument |
| Tuner.BitRev8Twice | sdrgg_usb.cpp:737-742 | reversing twice gives the byte back |
| Tuner.Device.ReadReg | sdrgg_rtl.cpp:379-447 | a successful read is the register, which an R820T sends with its bits reversed; only addresses from 32 on are refused |
| Tuner.Device.Rmw | sdrgg_rtl.cpp:450-466 | the write is worked out from the shadow where there is one and from the chip elsewhere |
| Tuner.Device.WriteBatch | sdrgg_rtl.cpp:469-485 | the writes before the first failure take effect in order, on chip and shadow |
| Tuner.Device.LowerIntents | sdrgg_r820t.cpp:527-547 | the intents before the first failure take effect in order; success means all of them |
| Tuner.Device.SetLnaGain | sdrgg_r820t.cpp:840-843 | exactly the LNA write, or nothing |
| Tuner.Device.SetMixerGain | sdrgg_r820t.cpp:845-858 | exactly the mixer write, or nothing |
| Tuner.Device.SetVgaGain | sdrgg_r820t.cpp:860-867 | exactly the VGA write, or nothing |
| Tuner.Device.Init | sdrgg_r820t.cpp:726-748 | success leaves the chip coherent with the power-up image and the three default gains on top of it |
| Tuner.Device.Flush | sdrgg_r820t.cpp:729-735 | the registers before the first failure are written from the shadow, which does not change; success is coherence |
| Tuner.Device.ResetTuner | sdrgg_reset.cpp:66-93 | whatever was in the registers, success restores those of an R820T to the shadow and starts an FC0012 afresh; other tuner classes are refused untouched |
| Tuner.Device.AcquireLock | sdrgg_r820t.cpp:674-703 | current is raised exactly after a first probe without lock; success needs a probe with lock, the PLL error is two without; the writes are a prefix of escalation and fine step |
| Tuner.Device.SetPll | sdrgg_r820t.cpp:772-813 | the writes are a prefix of the synthesis and lock writes, all of them on success; the reference is 28,800 kHz corrected by ppm and rounded down; without a candidate there are neither writes nor probes |
| Tuner.Device.SetFreq | sdrgg_r820t.cpp:816-836 | the writes are a prefix of the retune, all of them on success, which needs a candidate and a probe with lock; the reference is 28,800 kHz corrected by ppm and rounded down, and success leaves a coherent device coherent and tuned by it; every error is accounted for |
| Tuner.CorrectedIs | sdrgg_r820t.cpp:321-325 | a correction from -1,000,000 ppm on multiplies by 1 + ppm / 10^6 and rounds down |
| Tuner.AccurateCorrections | sdrgg_r820t.cpp:321-325 | synthesis divides by zero for no target and is accurate for every one exactly under corrections from -771,493 to 137,777 ppm |
| Tuner.CorrectionMovesZero | sdrgg_rtl.cpp:787-800 | 100 ppm makes 450,045 Hz divide by zero and 450,000 Hz not |
| Tuner.CorrectionWrapsBack | sdrgg_rtl.cpp:787-800 | at 1254 ppm 450,560 Hz is stored as itself with a ratio 2^28 too small |
| Tuner.Solve | sdrgg_r820t.cpp:777-803 | enumerate, avoid spurs, rank and pack yield the chosen words exactly for tunable targets and the PLL error for the rest |
| Tuner.Device.SetBandwidth | sdrgg_r820t.cpp:871-944 | for requests up to 2430 kHz the filter written and the IF programmed fit the request, above that they are the fixed ones of 3570 and 4570 kHz; the NCO decodes to minus that IF, rounded down |
| Tuner.Device.SetIfFreq | sdrgg_rtl.cpp:852-879 | success writes the three NCO bytes, in order, and stores the IF; a failure stores nothing |
| Tuner.Device.SetSampleRate | sdrgg_rtl.cpp:782-845 | success is the writes of ratio, reset on, reset off and the stored IF, in this order, after those of the filter; an R820T storing 2,000,000 or more gets the fitting filter up to 2,430,999 and the fixed one of its range above, with its IF, and nothing else gets any; the ratio and the IF are then in the demodulator and the gate is closed; a rate outside 225,000..3,200,000 changes nothing |
| Tuner.Device.DeployFilterCoefficients | sdrgg_rtl.cpp:543-569 | after a complete deployment the 20 registers unpack to the 16 taps, and no other register has changed |
| Bandwidth.SelectFilter | sdrgg_r820t.cpp:871-932 | up to 2430 kHz the offsets and table entry cover the request, no narrower entry would, and IF + width / 2 = 2300 + offsets; above that the three fixed choices |
| Bandwidth.FittingIsListed | sdrgg_r820t.cpp:895-932 | exactly one choice fits a request up to 2430 kHz: the listed register byte and IF of its one of 19 ranges |
| Bandwidth.SelectionIsUnique | sdrgg_r820t.cpp:927 | the register byte decodes to one table entry |
| Baseband.ZeroRatio | sdrgg_rtl.cpp:787-800 | for any crystal, corrected or not, the effective ratio is zero exactly when xtal % (64 rate) * 2^20 < rate |
| Baseband.ZeroUncorrected | sdrgg_rtl.cpp:795-800 | of the accepted rates these are 225000 and 450000 without a correction |
| Baseband.FaithfulRatio | sdrgg_rtl.cpp:787-799 | for any crystal, the effective ratio is floor(xtal * 2^22 / rate) rounded down to a multiple of 4 exactly for xtal < 32 rate and 96 rate <= xtal < 128 rate |
| Baseband.DemodulatorRatio | sdrgg_rtl.cpp:795-799 | in every band, the effective ratio is bits 2 to 27 of the full ratio with bit 28 a copy of bit 27 |
| Baseband.AchievedRate | sdrgg_rtl.cpp:799-800 | in every band, the stored rate is the scaled crystal divided by that ratio, cut to 32 bits |
| Baseband.StoredRateIff | sdrgg_rtl.cpp:787-800 | for any 32-bit crystal and accepted rate that does not divide by zero, the stored rate is the requested one exactly on those bands, where the ratio is fine enough, and where it wraps back |
| Baseband.FineFromTenMegahertz | sdrgg_rtl.cpp:782-800 | from a crystal of 9,765,625 Hz on every accepted rate is fine enough |
| Baseband.StoredRateUncorrected | sdrgg_rtl.cpp:794-800 | without a correction, the stored rate is the requested one exactly on (225000, 300000] and (900000, 3200000], 225000 and 450000 aside |
| Baseband.TooSmallRatio | sdrgg_rtl.cpp:800 | with a ratio too small by a multiple of 2^28 the rate comes back exactly when 16 times the ratio divides the multiple of the rate and the rest is below the ratio |
| Baseband.NcoRoundTrip | sdrgg_rtl.cpp:864-875 | the 6 + 8 + 8 bits give a word back exactly when it fits 22-bit two's complement |
| Baseband.NcoAccuracy | sdrgg_rtl.cpp:852-875 | the bits decode to minus floor(if * 2^22 / 28.8 MHz) exactly up to 14,400,006 Hz, short of the request by less than one step |
| Baseband.FirRoundTrip | sdrgg_rtl.cpp:538-558 | unpacking returns a kernel exactly when its taps fit 8 and 12 bits, as the shipped one's do |
| Baseband.PackPair | sdrgg_rtl.cpp:553-557 | three bytes hold two taps modulo 2^12, no other byte changes |
| Baseband.PackKernel | sdrgg_rtl.cpp:543-558 | the two loops leave all 16 taps in the bytes and write each of the 20 bytes exactly once, in order |
| Fc0012.DeriveMultiplier | sdrgg_fc0012.cpp:205-232 | the loop finds the specified selection, its VCO the product and its bias elevated exactly from 3,059,944,320 Hz on |
| Fc0012.SelectIsLargest | sdrgg_fc0012.cpp:205-232 | it is the largest multiplier with a VCO below 3.06 GHz, and 4 when there is none |
| Fc0012.SelectedBias | sdrgg_fc0012.cpp:214-230 | the bias is elevated exactly when frequency times multiplier reaches 3,059,944,320, so always in the fallback |
| Fc0012.RatioAndFractionAgree | sdrgg_fc0012.cpp:243-296 | the round-up and the sign of the fraction agree: (ratio + fraction) * 14.4 MHz is at most the VCO and short of it by less than 1440 Hz |
| Fc0012.FeasibleIff | sdrgg_fc0012.cpp:252-280 | which 16-bit ratios pass the feasibility test, 8-bit truncation included |
| Fc0012.SplitIsFaithfulIff | sdrgg_fc0012.cpp:252-280 | a ratio passes with 8 N + A equal to it exactly from 90 to 263, with N <= 31 and 2 <= A <= 15 |
| Fc0012.ReachableIff | sdrgg_fc0012.cpp:205-249 | the ratio of a frequency lies in 90..263 exactly from 13,425,000 to below 948,600,000 Hz, and in 142..263 from 22 MHz |
| Fc0012.AcceptedIff | sdrgg_fc0012.cpp:205-280 | which frequencies are accepted, and for which of them the chip holds the ratio |
| Fc0012.DividerRoundTrip | sdrgg_fc0012.cpp:190-203 | divider and bandwidth bytes decode to the multiplier, bias corrected or not |
| Fc0012.CommittedSessionIsTuned | sdrgg_fc0012.cpp:398-447 | after a session, whatever the calibration did, the registers decode to the multiplier and to a VCO at most 1440 Hz low; no other register but the calibration one changes |
| Fc0012.BiasAfterSession | sdrgg_fc0012.cpp:328-425 | after a session bit 3 of VCO_BW says elevated bias as selected, and the opposite exactly when a correction got through |
| Fc0012.InitRegisters | sdrgg_fc0012.cpp:124-170 | the capability blocks leave a fixed value in each register from 0x01 to 0x15 and change no other |
| Fc0012.Chip.Calibrate | sdrgg_fc0012.cpp:328-368 | the bias is corrected, by its one bit, exactly when the measured code is above 0x3C under elevated bias or below 0x02 without, with a second measurement after it |
| Fc0012.Chip.Init | sdrgg_fc0012.cpp:522-536 | the 21 writes in order up to the first failure; then the two priming writes, in place unless one of them failed, which is not reported; on success every register from 0x01 to 0x15 has its listed value |
| Fc0012.Chip.ExecuteTuningSession | sdrgg_fc0012.cpp:398-447 | refusal exactly for infeasible frequencies and without a write; an error after a prefix of the six writes; success with all six and a calibration, after which the bias bit is the selected one unless corrected |
| UsbPipeline.FillingUp | sdrgg_usb.cpp:292-326 | from an empty pipeline the first n URBs are in flight and counted, and back-pressure means all of them |
| UsbPipeline.ServiceKeepsInv | sdrgg_usb.cpp:367-481 | a harvested URB, delivered or not, resubmitted or not, keeps the accounting and leaves something in flight or the cancel flag set |
| UsbPipeline.RunKeepsInv | sdrgg_usb.cpp:292-481 | over any run `submitted` counts the set flags, completed + dropped counts the harvests, and a pipeline in use never drains silently |
| UsbPipeline.CountedByOutcome | sdrgg_usb.cpp:384-390 | over any run `completed` grows by the harvests with data and `dropped` by the others, modulo 2^32 |
| UsbPipeline.AllDataIsDelivered | sdrgg_usb.cpp:407-430 | with nobody asking to stop, as many buffers reach the user as were harvested with data |
| UsbPipeline.CancelledDrains | sdrgg_usb.cpp:411-414 | once cancelled, a run delivers and resubmits nothing, and every harvest takes one URB out of flight |
| UsbPipeline.BackpressureMeansFull | sdrgg_usb.cpp:314-383 | after any servicing back-pressure means that every URB is in flight |
| UsbPipeline.InFlightPlusRefused | sdrgg_usb.cpp:471-479 | in flight plus refused is what was in flight at the start, and the stream gives up exactly when every URB has been refused |
| UsbPipeline.SequenceHidesDrops | sdrgg_usb.cpp:416-424 | the sequence numbers delivered over any run are consecutive, whatever was dropped in between |
| UsbPipeline.PassLeavesMisses | sdrgg_usb.cpp:340-357 | cancelling leaves one URB with the kernel for each reap that failed or came from further on in the arena |
| UsbPipeline.AllReapedIff | sdrgg_usb.cpp:340-357 | cancelling reaps everything exactly when the URBs come back in array order |
| UsbPipeline.InOrderOneReapEach | sdrgg_usb.cpp:340-357 | and then the kernel has been asked once for each URB in flight |
| UsbPipeline.NothingFlagged | sdrgg_usb.cpp:340-357 | a pass over cleared books asks the kernel for nothing and leaves it what it has |
| UsbPipeline.OutOfOrderLeavesOne | sdrgg_usb.cpp:340-357 | two URBs coming back in the wrong order: one is missed |
| UsbPipeline.Pipeline.constructor | sdrgg_usb.cpp:216-231 | nothing in flight, all counters zero |
| UsbPipeline.Pipeline.UrbSubmit | sdrgg_usb.cpp:292-316 | a URB in flight is refused as busy; otherwise it is in flight and counted, or the kernel has refused it and nothing has changed |
| UsbPipeline.Pipeline.UrbSubmitAll | sdrgg_usb.cpp:318-326 | submission in order up to the first busy or refused URB; success means all |
| UsbPipeline.Pipeline.UrbReap | sdrgg_usb.cpp:367-391 | one URB the kernel held is out of flight and counted as completed or dropped, or nothing was ready and nothing changed |
| UsbPipeline.Pipeline.ProcessDeviceUrbs | sdrgg_usb.cpp:407-481 | servicing is a run of service steps that ends with the first empty answer from the kernel, delivers consecutive numbers, and does not end drained with nobody told |
| UsbPipeline.Pipeline.UrbCancelAll | sdrgg_usb.cpp:328-365 | the kernel is asked once for each index still flagged when reached; the books end empty with back-pressure and counters as they were; the kernel keeps as many URBs as were missed, none exactly when the reaps were in array order; a cancel of cleared books does nothing |
| UsbPipeline.Pipeline.CancelAndFree | sdrgg_ring.cpp:206-215 | cancelling and then freeing, which cancels again, asks no more of the kernel than the first cancel, and frees no buffer the kernel still holds exactly when the URBs came back in array order |
| UsbPipeline.Endpoint.BulkRead | sdrgg_usb.cpp:128-171 | the buffer starts with exactly the bytes taken from the device and is otherwise unchanged; each request is for all that is left or 16384 bytes; a read ends early only at a transfer that failed or moved less than was asked for, and is an error exactly when the first one failed |

## Left out

- Tuner.Device.SetFreq: asks, as do SetPll and Solve, that nothing on the way divides by zero (`Synthesizer.Computable`), which the code does not check; for which references every target meets it, `Synthesizer.ComputableEverywhereIff` says.
- Tuner.Device.SetSampleRate: asks that crystal and rate do not divide by zero (`Baseband.DividesByZero`), because the code divides unchecked.
- Synthesizer.QuantiseIsMonotone: is about references whose zone products fit 32 bits, about 33 GHz.
- Synthesizer.ComputableEverywhereIff: so is this; beyond, the wrapped zone edges decide case by case.
- Tuner.AccurateCorrections: therefore stops at 1,155,000,000 ppm, and at -1,000,000 ppm, where the crystal would stand still.
- UsbPipeline.Pipeline.ProcessDeviceUrbs: the number of completions before the kernel has none ready is arbitrary but finite; that there always is an end is the environment's promise, not the code's.
- UsbPipeline.Pipeline.UrbReap: a URB without a back pointer to its tracking record, which the code skips, does not occur.
- RingBuffer.IqRing.Subscribe: null devices and null callbacks, which the code refuses.
- RingInterleaving.EveryDelivery: bytes move one at a time and are seen at once by everybody; weaker memory orders and the language's notion of a data race are not modelled.
- Consumers that leave because the device is unplugged, and health and hot-plug bookkeeping.
- ioctl, sysfs, epoll, sleeps and delays, GPIO band switching, device enumeration, power and USB resets, logging.
- Attach and rollback, capability tables and getters in sdrgg_core.cpp and sdrgg_tuner_caps.cpp.
- The gain tables and profiles, FC0012 gain control, and R820T standby: small fixed tables and lists.
- The public raw register write, which bypasses the shadow: in `Shadow` it is a corruption.
- PLL lock and calibration physics: readbacks are arbitrary.
- Retuning after a change of sample rate, which the code does not do.
