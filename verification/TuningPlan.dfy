/**
 The register writes behind each R820T operation, which bits they own, and what a whole run of
 operations, each possibly cut short by a failed transfer, leaves in the chip.
 */
module TuningPlan {
  import opened Words
  import opened RegisterFile
  import opened Synthesizer

  // ---- Register addresses ----

  const LNA_BIAS: Address := 0x05
  const MIXER_DRIVE: Address := 0x07
  const FILT_BIAS: Address := 0x0A
  const HP_CONTROL: Address := 0x0B
  const IF_STAGE: Address := 0x0C
  const LNA_THRESHOLD: Address := 0x0D
  const MIX_THRESHOLD: Address := 0x0E
  const XDIV_PLL: Address := 0x10
  const CHARGE_PUMP: Address := 0x11
  const VCO_DRIVE: Address := 0x12
  const PLL_WORD: Address := 0x14
  const SDM_FRAC_LO: Address := 0x15
  const SDM_FRAC_HI: Address := 0x16
  const DRAIN_PATH: Address := 0x17
  const MUX_ROUTING: Address := 0x1A
  const TRACK_FILTER: Address := 0x1B
  const RF_TOP: Address := 0x1C
  const DETECT_BW: Address := 0x1D
  const TAIL_ATTEN: Address := 0x1F

  // ---- What each operation writes ----

  datatype PathEncoding = PathEncoding(drainBias: byte, muxSelector: byte, trackingTap: byte)

  /** Routing family and tracking band of a frequency, as the bytes they select. */
  function PathFor(freqHz: nat): PathEncoding {
    var mhz := freqHz / 1000000;
    var tap :=
      if mhz < 50 then 0xA0 else if mhz < 55 then 0x80 else if mhz < 60 then 0x60 else if mhz < 65 then 0x40
      else if mhz < 70 then 0x20 else if mhz < 80 then 0x00 else if mhz < 90 then 0x60 else if mhz < 100 then 0x40
      else if mhz < 110 then 0x20 else if mhz < 120 then 0x00 else if mhz < 140 then 0xE0 else if mhz < 180 then 0xC0
      else if mhz < 220 then 0xA0 else if mhz < 250 then 0x80 else if mhz < 280 then 0x60 else if mhz < 310 then 0x40
      else 0x00;
    PathEncoding(
      if mhz < 80 then 0x08 else 0x00,
      if mhz < 80 then 0x02 else if mhz < 280 then 0x41 else if mhz < 310 then 0x40 else if mhz < 588 then 0x41 else 0x40,
      tap)
  }

  /** Upper edges of the tracking bands in MHz, VLF_A to UHF_C; UHF_D has none. */
  const BAND_EDGES: seq<nat> := [50, 55, 60, 65, 70, 80, 90, 100, 110, 120, 140, 180, 220, 250, 280, 310, 450, 588, 650]

  const TAP_BY_BAND: seq<byte> := [
    0xA0, 0x80, 0x60, 0x40, 0x20, 0x00, 0x60, 0x40, 0x20, 0x00, 0xE0, 0xC0, 0xA0, 0x80, 0x60, 0x40, 0x00, 0x00, 0x00, 0x00]

  /** The edges that hold the frequency name one of the 20 bands, and the path is that band's: low-pass, direct or bypass. */
  lemma PathOfBand(freqHz: nat, band: nat)
    requires band < 20 && (band > 0 ==> BAND_EDGES[band - 1] <= freqHz / 1000000)
    requires band < 19 ==> freqHz / 1000000 < BAND_EDGES[band]
    ensures var path := PathFor(freqHz);
            && path.trackingTap == TAP_BY_BAND[band]
            && path.drainBias == (if band < 6 then 0x08 else 0x00)
            && path.muxSelector == if band < 6 then 0x02 else if band == 15 || band >= 18 then 0x40 else 0x41
  {
    if band == 0 {} else if band == 1 {} else if band == 2 {} else if band == 3 {} else if band == 4 {} else if band == 5 {}
    else if band == 6 {} else if band == 7 {} else if band == 8 {} else if band == 9 {} else if band == 10 {}
    else if band == 11 {} else if band == 12 {} else if band == 13 {} else if band == 14 {} else if band == 15 {}
    else if band == 16 {} else if band == 17 {} else if band == 18 {} else {}
  }

  function PathWrites(enc: PathEncoding): seq<Intent> {
    [Field(DRAIN_PATH, enc.drainBias, 0x08),
     Field(MUX_ROUTING, enc.muxSelector, 0xC3),
     Full(TRACK_FILTER, enc.trackingTap),
     Field(XDIV_PLL, 0x00, 0x0B)]
  }

  function SynthWrites(enc: PllEncoding): seq<Intent>
    requires EncodingOk(enc)
  {
    [Field(MUX_ROUTING, 0x00, 0x0C),
     Field(VCO_DRIVE, 0x80, 0xE0),
     Field(XDIV_PLL, enc.div as byte, 0xE0),
     Full(PLL_WORD, enc.niSi as byte),
     Field(VCO_DRIVE, enc.mode as byte, 0x08),
     Full(SDM_FRAC_HI, enc.sdmHi as byte),
     Full(SDM_FRAC_LO, enc.sdmLo as byte)]
  }

  const ESCALATE: Intent := Field(VCO_DRIVE, 0x60, 0xE0)

  const FINE_STEP: Intent := Field(MUX_ROUTING, 0x08, 0x08)

  /** Lock acquisition: more VCO current if the first probe finds no lock, then fine-step autotune. */
  function LockWrites(escalated: bool): seq<Intent> {
    if escalated then [ESCALATE, FINE_STEP] else [FINE_STEP]
  }

  function AnalogWrites(): seq<Intent> {
    [Field(DETECT_BW, 0xE5, 0xC7),
     Field(RF_TOP, 0x24, 0xF8),
     Field(CHARGE_PUMP, 0x38, 0x38),
     Field(DRAIN_PATH, 0x30, 0x30),
     Field(FILT_BIAS, 0x40, 0x60),
     Field(LNA_BIAS, 0x00, 0x80),
     Field(TAIL_ATTEN, 0x00, 0x80),
     Full(LNA_THRESHOLD, 0x53),
     Full(MIX_THRESHOLD, 0x75)]
  }

  /** A complete retune; without a PLL candidate it stops after the path. */
  function FreqWrites(lo: nat, ref: nat, escalated: bool): seq<Intent> {
    if Tunable(lo / 1000) then
      PathWrites(PathFor(lo)) + SynthWrites(PllWords(lo / 1000, ref)) + LockWrites(escalated) + AnalogWrites()
    else PathWrites(PathFor(lo))
  }

  function Clamped(index: int): (c: nat)
    ensures c < 16
  {
    if index < 0 then 0 else if index > 15 then 15 else index
  }

  /** A gain index as the four bits it is stored in. */
  function Code(index: int): byte {
    Clamped(index) as byte
  }

  /** compose_assignment for the LNA stage: negative means AGC, anything above 15 is 15. */
  function LnaWrite(index: int): Intent {
    if index < 0 then Field(LNA_BIAS, 0x00, 0x10)
    else Field(LNA_BIAS, 0x10 | Code(index), 0x1F)
  }

  function MixerWrite(index: int): Intent {
    if index < 0 then Field(MIXER_DRIVE, 0x10, 0x10)
    else Field(MIXER_DRIVE, 0x10 | Code(index), 0x1F)
  }

  function VgaWrite(index: int): Intent {
    Field(IF_STAGE, Code(index), 0x9F)
  }

  function FilterWrites(reg0a: byte, reg0b: byte): seq<Intent> {
    [Field(FILT_BIAS, reg0a, 0x10), Field(HP_CONTROL, reg0b, 0xEF)]
  }

  lemma CodeIsNibble(index: int)
    ensures Code(index) & 0xF0 == 0 && Code(index) as nat == Clamped(index)
  {
    var c := Clamped(index);
    ByteBack(c);
    NibbleBits(Code(index));
  }

  lemma NibbleBits(b: byte)
    requires b as nat < 16
    ensures b & 0xF0 == 0
  {
    assert b < 16;
  }

  /** g is cur with the low nibble and the bits `mode` set as given, and the bits `keep` left alone. */
  predicate GainField(g: byte, cur: byte, nibble: byte, mode: byte, on: bool, keep: byte) {
    g & 0x0F == nibble && g & mode == (if on then mode else 0) && g & keep == cur & keep
  }

  lemma ManualMerge(cur: byte, code: byte)
    requires code & 0xF0 == 0
    ensures GainField(Merge(cur, 0x10 | code, 0x1F), cur, code, 0x10, true, 0xE0)
  {
  }

  lemma AgcMerge(cur: byte)
    ensures GainField(Merge(cur, 0x10, 0x10), cur, cur & 0x0F, 0x10, true, 0xE0)
    ensures GainField(Merge(cur, 0x00, 0x10), cur, cur & 0x0F, 0x10, false, 0xE0)
  {
  }

  lemma VgaMerge(cur: byte, code: byte)
    requires code & 0xF0 == 0
    ensures GainField(Merge(cur, code, 0x9F), cur, code, 0x90, false, 0x60)
  {
  }

  /** LNA: the clamped index under manual mode, or the old nibble under AGC. */
  lemma LnaMeaning(f: File, index: int)
    ensures GainField(Put(f, LnaWrite(index))[LNA_BIAS], f[LNA_BIAS],
                      if index < 0 then f[LNA_BIAS] & 0x0F else Code(index), 0x10, index >= 0, 0xE0)
    ensures Code(index) as nat == if index < 0 then 0 else if index > 15 then 15 else index
  {
    CodeIsNibble(index);
    PutAt(f, LnaWrite(index), LNA_BIAS);
    AgcMerge(f[LNA_BIAS]);
    ManualMerge(f[LNA_BIAS], Code(index));
  }

  /** Mixer: likewise, except that its mode bit is set either way. */
  lemma MixerMeaning(f: File, index: int)
    ensures GainField(Put(f, MixerWrite(index))[MIXER_DRIVE], f[MIXER_DRIVE],
                      if index < 0 then f[MIXER_DRIVE] & 0x0F else Code(index), 0x10, true, 0xE0)
    ensures Code(index) as nat == if index < 0 then 0 else if index > 15 then 15 else index
  {
    CodeIsNibble(index);
    PutAt(f, MixerWrite(index), MIXER_DRIVE);
    AgcMerge(f[MIXER_DRIVE]);
    ManualMerge(f[MIXER_DRIVE], Code(index));
  }

  /** VGA: the clamped index, with bits 7 and 4 cleared. */
  lemma VgaMeaning(f: File, index: int)
    ensures GainField(Put(f, VgaWrite(index))[IF_STAGE], f[IF_STAGE], Code(index), 0x90, false, 0x60)
    ensures Code(index) as nat == if index < 0 then 0 else if index > 15 then 15 else index
  {
    CodeIsNibble(index);
    PutAt(f, VgaWrite(index), IF_STAGE);
    VgaMerge(f[IF_STAGE], Code(index));
  }

  /** The channel filter: bit 4 of register 0x0A and all but bit 4 of register 0x0B; the other bits of both stay. */
  lemma FilterMeaning(f: File, reg0a: byte, reg0b: byte)
    ensures var g := PutAll(f, FilterWrites(reg0a, reg0b));
            && g[0x0A] & 0x10 == reg0a & 0x10 && g[0x0A] & 0xEF == f[0x0A] & 0xEF
            && g[0x0B] & 0xEF == reg0b & 0xEF && g[0x0B] & 0x10 == f[0x0B] & 0x10
            && forall r: Address | r != 0x0A && r != 0x0B :: g[r] == f[r]
  {
    var a, b := Field(0x0A, reg0a, 0x10), Field(0x0B, reg0b, 0xEF);
    assert FilterWrites(reg0a, reg0b) == [a] + [b];
    PutAllSnoc(f, [a], b);
    assert [a] == [] + [a];
    PutAllSnoc(f, [], a);
    var h := Put(f, a);
    PutBits(f, a, 0x0A, 0x10);
    PutBits(f, a, 0x0A, 0xEF);
    PutBits(h, b, 0x0B, 0xEF);
    PutBits(h, b, 0x0B, 0x10);
    forall r: Address
      ensures h[r] == (if r == 0x0A then h[r] else f[r]) && Put(h, b)[r] == if r == 0x0B then Put(h, b)[r] else h[r]
    {
      PutAt(f, a, r);
      PutAt(h, b, r);
    }
  }

  // ---- Who owns which bits ----

  /** Gain stages and channel filter. */
  predicate GainOrFilterBits(r: Address, mask: byte) {
    || (r == LNA_BIAS && mask == 0x1F) || (r == MIXER_DRIVE && mask == 0x1F) || (r == IF_STAGE && mask == 0x9F)
    || (r == FILT_BIAS && mask == 0x10) || (r == HP_CONTROL && mask == 0xEF)
  }

  /** RF path and PLL words. */
  predicate TuningBits(r: Address, mask: byte) {
    || (r == DRAIN_PATH && mask == 0x08) || (r == MUX_ROUTING && mask == 0xC3) || (r == TRACK_FILTER && mask == 0xFF)
    || (r == XDIV_PLL && mask == 0xE0) || (r == PLL_WORD && mask == 0xFF) || (r == VCO_DRIVE && mask == 0x08)
    || (r == SDM_FRAC_HI && mask == 0xFF) || (r == SDM_FRAC_LO && mask == 0xFF)
  }

  lemma PathSparesGains(enc: PathEncoding, r: Address, mask: byte)
    requires GainOrFilterBits(r, mask)
    ensures Spares(PathWrites(enc), r, mask)
  {
  }

  lemma SynthSparesGains(enc: PllEncoding, escalated: bool, r: Address, mask: byte)
    requires EncodingOk(enc) && GainOrFilterBits(r, mask)
    ensures Spares(SynthWrites(enc), r, mask) && Spares(LockWrites(escalated), r, mask)
  {
  }

  lemma AnalogSparesGains(r: Address, mask: byte)
    requires GainOrFilterBits(r, mask)
    ensures Spares(AnalogWrites(), r, mask)
  {
  }

  lemma RetuneSparesGains(lo: nat, ref: nat, escalated: bool, r: Address, mask: byte)
    requires GainOrFilterBits(r, mask)
    ensures Spares(FreqWrites(lo, ref, escalated), r, mask)
  {
    var path := PathWrites(PathFor(lo));
    PathSparesGains(PathFor(lo), r, mask);
    if Tunable(lo / 1000) {
      var synth := SynthWrites(PllWords(lo / 1000, ref));
      SynthSparesGains(PllWords(lo / 1000, ref), escalated, r, mask);
      AnalogSparesGains(r, mask);
      SparesAppend(path, synth, r, mask);
      SparesAppend(path + synth, LockWrites(escalated), r, mask);
      SparesAppend(path + synth + LockWrites(escalated), AnalogWrites(), r, mask);
    }
  }

  lemma GainsSpareTuning(index: int, reg0a: byte, reg0b: byte, r: Address, mask: byte)
    requires TuningBits(r, mask)
    ensures Spares([LnaWrite(index)], r, mask) && Spares([MixerWrite(index)], r, mask) && Spares([VgaWrite(index)], r, mask)
    ensures Spares(FilterWrites(reg0a, reg0b), r, mask)
  {
  }

  lemma PrefixSpares(ws: seq<Intent>, n: nat, r: Address, mask: byte)
    requires n <= |ws| && Spares(ws, r, mask)
    ensures Spares(ws[..n], r, mask)
  {
  }

  // ---- Runs ----

  /** An operation; a retune under the reference, corrected or not, that is in force when it is called. */
  datatype Op =
    | SetFreq(lo: nat, ref: nat, escalated: bool)
    | SetLna(index: int)
    | SetMixer(index: int)
    | SetVga(index: int)
    | SetBandwidth(reg0a: byte, reg0b: byte)

  function Writes(op: Op): seq<Intent> {
    match op
    case SetFreq(lo, ref, escalated) => FreqWrites(lo, ref, escalated)
    case SetLna(index) => [LnaWrite(index)]
    case SetMixer(index) => [MixerWrite(index)]
    case SetVga(index) => [VgaWrite(index)]
    case SetBandwidth(a, b) => FilterWrites(a, b)
  }

  /** One call and how many of its writes got through before a transfer failed. */
  datatype Call = Call(op: Op, done: nat)

  /** The writes that got through. */
  function Made(call: Call): seq<Intent> {
    if call.done <= |Writes(call.op)| then Writes(call.op)[..call.done] else Writes(call.op)
  }

  /** Whatever prefix of an operation's writes gets through is a call of it. */
  lemma PrefixIsCall(op: Op, all: seq<Intent>, ws: seq<Intent>)
    requires Writes(op) == all && ws <= all
    ensures Made(Call(op, |ws|)) == ws
  {
  }

  /** The writes of a retune or of a filter selection up to a failure, and a gain write made or not, are those of a call. */
  lemma TracesAreCalls(ws: seq<Intent>, lo: nat, ref: nat, escalated: bool, reg0a: byte, reg0b: byte, index: int)
    ensures ws <= FreqWrites(lo, ref, escalated) ==> Made(Call(SetFreq(lo, ref, escalated), |ws|)) == ws
    ensures ws <= FilterWrites(reg0a, reg0b) ==> Made(Call(SetBandwidth(reg0a, reg0b), |ws|)) == ws
    ensures ws <= [LnaWrite(index)] ==> Made(Call(SetLna(index), |ws|)) == ws
    ensures ws <= [MixerWrite(index)] ==> Made(Call(SetMixer(index), |ws|)) == ws
    ensures ws <= [VgaWrite(index)] ==> Made(Call(SetVga(index), |ws|)) == ws
  {
    if ws <= FreqWrites(lo, ref, escalated) {
      PrefixIsCall(SetFreq(lo, ref, escalated), FreqWrites(lo, ref, escalated), ws);
    }
    if ws <= FilterWrites(reg0a, reg0b) {
      PrefixIsCall(SetBandwidth(reg0a, reg0b), FilterWrites(reg0a, reg0b), ws);
    }
    if ws <= [LnaWrite(index)] {
      PrefixIsCall(SetLna(index), [LnaWrite(index)], ws);
    }
    if ws <= [MixerWrite(index)] {
      PrefixIsCall(SetMixer(index), [MixerWrite(index)], ws);
    }
    if ws <= [VgaWrite(index)] {
      PrefixIsCall(SetVga(index), [VgaWrite(index)], ws);
    }
  }

  function Effect(f: File, call: Call): File {
    PutAll(f, Made(call))
  }

  function RunFile(f: File, run: seq<Call>): File
    decreases |run|
  {
    if run == [] then f else RunFile(Effect(f, run[0]), run[1..])
  }

  function WithoutRetunes(run: seq<Call>): seq<Call> {
    if run == [] then []
    else if run[0].op.SetFreq? then WithoutRetunes(run[1..])
    else [run[0]] + WithoutRetunes(run[1..])
  }

  lemma EffectSpares(f: File, call: Call, r: Address, mask: byte)
    requires Spares(Writes(call.op), r, mask)
    ensures Effect(f, call)[r] & mask == f[r] & mask
  {
    if call.done <= |Writes(call.op)| {
      PrefixSpares(Writes(call.op), call.done, r, mask);
    }
    SparedBitsStay(f, Made(call), r, mask);
  }

  lemma PutAgrees(f: File, g: File, w: Intent, r: Address, mask: byte)
    requires f[r] & mask == g[r] & mask
    ensures Put(f, w)[r] & mask == Put(g, w)[r] & mask
  {
    PutAt(f, w, r);
    PutAt(g, w, r);
    if w.target == r {
      MergeAgrees(f[r], g[r], w.value, Reach(w), mask);
    }
  }

  lemma MergeAgrees(a: byte, b: byte, value: byte, reach: byte, mask: byte)
    requires a & mask == b & mask
    ensures Merge(a, value, reach) & mask == Merge(b, value, reach) & mask
  {
  }

  lemma {:induction false} PutAllAgrees(f: File, g: File, ws: seq<Intent>, r: Address, mask: byte)
    requires f[r] & mask == g[r] & mask
    ensures PutAll(f, ws)[r] & mask == PutAll(g, ws)[r] & mask
  {
    if ws != [] {
      PutAllAgrees(f, g, ws[..|ws| - 1], r, mask);
      PutAgrees(PutAll(f, ws[..|ws| - 1]), PutAll(g, ws[..|ws| - 1]), ws[|ws| - 1], r, mask);
    }
  }

  /** f and g hold the same bits `mask` of register r. */
  predicate Agree(f: File, g: File, r: Address, mask: byte) {
    f[r] & mask == g[r] & mask
  }

  /** A retune, however far it gets, leaves gain and filter bits alone. */
  lemma RetuneAgrees(f: File, call: Call, r: Address, mask: byte)
    requires GainOrFilterBits(r, mask) && call.op.SetFreq?
    ensures Agree(Effect(f, call), f, r, mask)
  {
    RetuneSparesGains(call.op.lo, call.op.ref, call.op.escalated, r, mask);
    EffectSpares(f, call, r, mask);
  }

  lemma EffectAgrees(f: File, g: File, call: Call, r: Address, mask: byte)
    requires Agree(f, g, r, mask)
    ensures Agree(Effect(f, call), Effect(g, call), r, mask)
  {
    PutAllAgrees(f, g, Made(call), r, mask);
  }

  /**
   Retunes never disturb gain or filter settings: over any run, with failures anywhere, those
   bits end up as if every set_freq had been left out.
   */
  lemma {:induction false} RetunesAreInvisibleToGains(f: File, g: File, run: seq<Call>, r: Address, mask: byte)
    requires GainOrFilterBits(r, mask) && Agree(f, g, r, mask)
    ensures Agree(RunFile(f, run), RunFile(g, WithoutRetunes(run)), r, mask)
    decreases |run|
  {
    if run != [] {
      var call, rest, kept := run[0], run[1..], WithoutRetunes(run[1..]);
      if call.op.SetFreq? {
        RetuneAgrees(f, call, r, mask);
        RetunesAreInvisibleToGains(Effect(f, call), g, rest, r, mask);
      } else {
        EffectAgrees(f, g, call, r, mask);
        RunOn(g, call, kept);
        RetunesAreInvisibleToGains(Effect(f, call), Effect(g, call), rest, r, mask);
      }
    }
  }

  lemma RunOn(f: File, call: Call, rest: seq<Call>)
    ensures RunFile(f, [call] + rest) == RunFile(Effect(f, call), rest)
  {
    assert ([call] + rest)[1..] == rest;
  }

  predicate NoRetune(run: seq<Call>) {
    forall k | 0 <= k < |run| :: !run[k].op.SetFreq?
  }

  /** Gain and filter calls, however they end, leave the tuning alone. */
  lemma {:induction false} GainsAreInvisibleToTuning(f: File, run: seq<Call>, r: Address, mask: byte)
    requires TuningBits(r, mask) && NoRetune(run)
    ensures RunFile(f, run)[r] & mask == f[r] & mask
    decreases |run|
  {
    if run != [] {
      var op := run[0].op;
      GainsSpareTuning(if op.SetLna? || op.SetMixer? || op.SetVga? then op.index else 0,
                       if op.SetBandwidth? then op.reg0a else 0, if op.SetBandwidth? then op.reg0b else 0, r, mask);
      EffectSpares(f, run[0], r, mask);
      GainsAreInvisibleToTuning(Effect(f, run[0]), run[1..], r, mask);
    }
  }

  // ---- What a completed retune leaves ----

  /** The PLL words in the chip. */
  function DecodeFile(f: File): (enc: PllEncoding)
    ensures EncodingOk(enc)
  {
    PllEncoding((f[XDIV_PLL] & 0xE0) as nat, f[PLL_WORD] as nat, (f[VCO_DRIVE] & 0x08) as nat,
                f[SDM_FRAC_HI] as nat, f[SDM_FRAC_LO] as nat)
  }

  predicate PathInFile(f: File, enc: PathEncoding) {
    f[DRAIN_PATH] & 0x08 == enc.drainBias && f[MUX_ROUTING] & 0xC3 == enc.muxSelector && f[TRACK_FILTER] == enc.trackingTap
  }

  /** A write in the middle block keeps its bits when the rest of the block and all later writes spare them. */
  lemma FieldOfBlock(f: File, pre: seq<Intent>, block: seq<Intent>, post: seq<Intent>, i: nat, r: Address, mask: byte)
    requires i < |block| && block[i].target == r && Reach(block[i]) & mask == mask
    requires Spares(block[i + 1..], r, mask) && Spares(post, r, mask)
    ensures PutAll(f, pre + block + post)[r] & mask == block[i].value & mask
  {
    var ws := pre + block + post;
    assert ws[|pre| + i] == block[i];
    assert ws[|pre| + i + 1..] == block[i + 1..] + post;
    SparesAppend(block[i + 1..], post, r, mask);
    LastWriterWins(f, ws, |pre| + i, r, mask);
  }

  lemma LaterBlocksSpare(escalated: bool, r: Address, mask: byte)
    requires TuningBits(r, mask)
    ensures Spares(LockWrites(escalated) + AnalogWrites(), r, mask)
  {
    assert Spares(LockWrites(escalated), r, mask);
    assert Spares(AnalogWrites(), r, mask);
    SparesAppend(LockWrites(escalated), AnalogWrites(), r, mask);
  }

  lemma RetuneSetsPath(f: File, path: PathEncoding, enc: PllEncoding, escalated: bool)
    requires EncodingOk(enc)
    ensures var g := PutAll(f, PathWrites(path) + SynthWrites(enc) + LockWrites(escalated) + AnalogWrites());
            && g[DRAIN_PATH] & 0x08 == path.drainBias & 0x08
            && g[MUX_ROUTING] & 0xC3 == path.muxSelector & 0xC3
            && g[TRACK_FILTER] & 0xFF == path.trackingTap & 0xFF
  {
    var p, s, rest := PathWrites(path), SynthWrites(enc), LockWrites(escalated) + AnalogWrites();
    assert PathWrites(path) + SynthWrites(enc) + LockWrites(escalated) + AnalogWrites() == [] + p + (s + rest);
    SynthSparesPath(enc, rest, escalated, DRAIN_PATH, 0x08);
    FieldOfBlock(f, [], p, s + rest, 0, DRAIN_PATH, 0x08);
    SynthSparesPath(enc, rest, escalated, MUX_ROUTING, 0xC3);
    FieldOfBlock(f, [], p, s + rest, 1, MUX_ROUTING, 0xC3);
    SynthSparesPath(enc, rest, escalated, TRACK_FILTER, 0xFF);
    FieldOfBlock(f, [], p, s + rest, 2, TRACK_FILTER, 0xFF);
  }

  lemma SynthSparesPath(enc: PllEncoding, rest: seq<Intent>, escalated: bool, r: Address, mask: byte)
    requires EncodingOk(enc) && rest == LockWrites(escalated) + AnalogWrites()
    requires (r == DRAIN_PATH && mask == 0x08) || (r == MUX_ROUTING && mask == 0xC3) || (r == TRACK_FILTER && mask == 0xFF)
    ensures Spares(SynthWrites(enc) + rest, r, mask)
  {
    LaterBlocksSpare(escalated, r, mask);
    assert Spares(SynthWrites(enc), r, mask);
    SparesAppend(SynthWrites(enc), rest, r, mask);
  }

  lemma RetuneSetsPll(f: File, path: PathEncoding, enc: PllEncoding, escalated: bool)
    requires EncodingOk(enc)
    ensures var g := PutAll(f, PathWrites(path) + SynthWrites(enc) + LockWrites(escalated) + AnalogWrites());
            && g[XDIV_PLL] & 0xE0 == enc.div as byte & 0xE0
            && g[PLL_WORD] & 0xFF == enc.niSi as byte & 0xFF
            && g[VCO_DRIVE] & 0x08 == enc.mode as byte & 0x08
            && g[SDM_FRAC_HI] & 0xFF == enc.sdmHi as byte & 0xFF
            && g[SDM_FRAC_LO] & 0xFF == enc.sdmLo as byte & 0xFF
  {
    var p, s, rest := PathWrites(path), SynthWrites(enc), LockWrites(escalated) + AnalogWrites();
    assert PathWrites(path) + SynthWrites(enc) + LockWrites(escalated) + AnalogWrites() == p + s + rest;
    LaterBlocksSpare(escalated, XDIV_PLL, 0xE0);
    FieldOfBlock(f, p, s, rest, 2, XDIV_PLL, 0xE0);
    LaterBlocksSpare(escalated, PLL_WORD, 0xFF);
    FieldOfBlock(f, p, s, rest, 3, PLL_WORD, 0xFF);
    LaterBlocksSpare(escalated, VCO_DRIVE, 0x08);
    FieldOfBlock(f, p, s, rest, 4, VCO_DRIVE, 0x08);
    LaterBlocksSpare(escalated, SDM_FRAC_HI, 0xFF);
    FieldOfBlock(f, p, s, rest, 5, SDM_FRAC_HI, 0xFF);
    LaterBlocksSpare(escalated, SDM_FRAC_LO, 0xFF);
    FieldOfBlock(f, p, s, rest, 6, SDM_FRAC_LO, 0xFF);
  }

  lemma PathBits(freqHz: nat)
    ensures var enc := PathFor(freqHz);
            enc.drainBias & 0x08 == enc.drainBias && enc.muxSelector & 0xC3 == enc.muxSelector
  {
    var enc := PathFor(freqHz);
    assert enc.drainBias == 0x08 || enc.drainBias == 0x00;
    assert enc.muxSelector == 0x02 || enc.muxSelector == 0x40 || enc.muxSelector == 0x41;
  }

  lemma WholeByte(x: nat)
    requires x < 256
    ensures (x as byte & 0xFF) as nat == x
  {
    ByteBack(x);
    AllBits(x as byte);
  }

  lemma AllBits(b: byte)
    ensures b & 0xFF == b
  {
  }

  lemma DivBits(order: nat)
    requires 1 <= order <= 6
    ensures (DivField(order) as byte & 0xE0) as nat == DivField(order)
  {
    if order == 1 {} else if order == 2 {} else if order == 3 {} else if order == 4 {} else if order == 5 {} else {}
  }

  lemma ModeBits(mode: nat)
    requires mode == 0 || mode == 8
    ensures (mode as byte & 0x08) as nat == mode
  {
    if mode == 0 {} else {}
  }

  /** A completed retune leaves exactly the chosen PLL words and path in the chip, escalated lock or not. */
  lemma RetuneDecodes(f: File, lo: nat, ref: nat, escalated: bool)
    requires Tunable(lo / 1000)
    ensures var g := PutAll(f, FreqWrites(lo, ref, escalated));
            DecodeFile(g) == PllWords(lo / 1000, ref) && PathInFile(g, PathFor(lo))
  {
    var path, enc := PathFor(lo), PllWords(lo / 1000, ref);
    var g := PutAll(f, FreqWrites(lo, ref, escalated));
    RetuneSetsPath(f, path, enc, escalated);
    RetuneSetsPll(f, path, enc, escalated);
    PathBits(lo);
    AllBits(g[TRACK_FILTER]);
    AllBits(path.trackingTap);
    AllBits(g[PLL_WORD]);
    AllBits(g[SDM_FRAC_HI]);
    AllBits(g[SDM_FRAC_LO]);
    WholeByte(enc.niSi);
    WholeByte(enc.sdmHi);
    WholeByte(enc.sdmLo);
    OrderForHits(lo / 1000);
    DivBits(OrderFor(lo / 1000));
    ModeBits(enc.mode);
  }

  /** The analog profile of reception, register by register. */
  predicate ProfileSet(g: File) {
    && g[0x1D] & 0xC7 == 0xC5 && g[0x1C] & 0xF8 == 0x20 && g[0x11] & 0x38 == 0x38 && g[0x17] & 0x30 == 0x30
    && g[0x0A] & 0x60 == 0x40 && g[0x05] & 0x80 == 0x00 && g[0x1F] & 0x80 == 0x00 && g[0x0D] & 0xFF == 0x53 && g[0x0E] & 0xFF == 0x75
  }

  lemma AnalogSets(f: File, pre: seq<Intent>)
    ensures ProfileSet(PutAll(f, pre + AnalogWrites()))
  {
    AnalogField(f, pre, 0, 0x1D, 0xC7);
    AnalogField(f, pre, 1, 0x1C, 0xF8);
    AnalogField(f, pre, 2, 0x11, 0x38);
    AnalogField(f, pre, 3, 0x17, 0x30);
    AnalogField(f, pre, 4, 0x0A, 0x60);
    AnalogField(f, pre, 5, 0x05, 0x80);
    AnalogField(f, pre, 6, 0x1F, 0x80);
    AnalogField(f, pre, 7, 0x0D, 0xFF);
    AnalogField(f, pre, 8, 0x0E, 0xFF);
  }

  lemma AnalogField(f: File, pre: seq<Intent>, i: nat, r: Address, mask: byte)
    requires i < 9 && AnalogWrites()[i].target == r && Reach(AnalogWrites()[i]) & mask == mask
    ensures PutAll(f, pre + AnalogWrites())[r] & mask == AnalogWrites()[i].value & mask
  {
    var ws := AnalogWrites();
    assert Spares(ws[i + 1..], r, mask) by {
      forall j | i < j < 9
        ensures !Touches(ws[j], r, mask)
      {
        assert ws[j].target != r;
      }
    }
    assert pre + ws == pre + ws + [];
    FieldOfBlock(f, pre, ws, [], i, r, mask);
  }

  /** VCO current as lock acquisition left it, fine-step autotune on, the crystal undivided. */
  predicate LockSet(g: File, escalated: bool) {
    g[0x12] & 0xE0 == (if escalated then 0x60 else 0x80) && g[0x1A] & 0x0C == 0x08 && g[0x10] & 0x0B == 0x00
  }

  lemma LockSets(f: File, path: PathEncoding, enc: PllEncoding, escalated: bool)
    requires EncodingOk(enc)
    ensures LockSet(PutAll(f, PathWrites(path) + SynthWrites(enc) + LockWrites(escalated) + AnalogWrites()), escalated)
  {
    var g := PutAll(f, PathWrites(path) + SynthWrites(enc) + LockWrites(escalated) + AnalogWrites());
    FineStepSet(f, PathWrites(path) + SynthWrites(enc), escalated);
    CurrentSet(f, PathWrites(path), enc, escalated);
    CrystalUndivided(f, path, SynthWrites(enc), escalated);
    TwoBits(g[0x1A]);
  }

  lemma FineStepSet(f: File, pre: seq<Intent>, escalated: bool)
    ensures PutAll(f, pre + LockWrites(escalated) + AnalogWrites())[0x1A] & 0x08 == 0x08
    ensures escalated ==> PutAll(f, pre + LockWrites(escalated) + AnalogWrites())[0x12] & 0xE0 == 0x60
  {
    var l, a := LockWrites(escalated), AnalogWrites();
    FieldOfBlock(f, pre, l, a, |l| - 1, 0x1A, 0x08);
    if escalated {
      assert l[1..] == [FINE_STEP];
      FieldOfBlock(f, pre, l, a, 0, 0x12, 0xE0);
    }
  }

  lemma CurrentSet(f: File, pre: seq<Intent>, enc: PllEncoding, escalated: bool)
    requires EncodingOk(enc)
    ensures var g := PutAll(f, pre + SynthWrites(enc) + LockWrites(escalated) + AnalogWrites());
            g[0x1A] & 0x04 == 0x00 && (!escalated ==> g[0x12] & 0xE0 == 0x80)
  {
    var s, l, a := SynthWrites(enc), LockWrites(escalated), AnalogWrites();
    assert pre + s + l + a == pre + s + (l + a);
    SparesAppend(l, a, 0x1A, 0x04);
    FieldOfBlock(f, pre, s, l + a, 0, 0x1A, 0x04);
    if !escalated {
      SparesAppend(l, a, 0x12, 0xE0);
      FieldOfBlock(f, pre, s, l + a, 1, 0x12, 0xE0);
    }
  }

  lemma CrystalUndivided(f: File, path: PathEncoding, s: seq<Intent>, escalated: bool)
    requires Spares(s, 0x10, 0x0B)
    ensures PutAll(f, PathWrites(path) + s + LockWrites(escalated) + AnalogWrites())[0x10] & 0x0B == 0x00
  {
    var p, l, a := PathWrites(path), LockWrites(escalated), AnalogWrites();
    assert p + s + l + a == [] + p + (s + (l + a));
    SparesAppend(l, a, 0x10, 0x0B);
    SparesAppend(s, l + a, 0x10, 0x0B);
    FieldOfBlock(f, [], p, s + (l + a), 3, 0x10, 0x0B);
  }

  lemma TwoBits(b: byte)
    requires b & 0x08 == 0x08 && b & 0x04 == 0x00
    ensures b & 0x0C == 0x08
  {
  }

  /** A completed retune also leaves the analog profile and the lock settings in place. */
  lemma RetuneSettles(f: File, lo: nat, ref: nat, escalated: bool)
    requires Tunable(lo / 1000)
    ensures var g := PutAll(f, FreqWrites(lo, ref, escalated)); ProfileSet(g) && LockSet(g, escalated)
  {
    var path, enc := PathFor(lo), PllWords(lo / 1000, ref);
    AnalogSets(f, PathWrites(path) + SynthWrites(enc) + LockWrites(escalated));
    LockSets(f, path, enc, escalated);
  }

  lemma SameByte(f: File, g: File, r: Address)
    requires Agree(f, g, r, 0xFF)
    ensures f[r] == g[r]
  {
    AllBits(f[r]);
    AllBits(g[r]);
  }

  lemma SamePll(f: File, g: File)
    requires forall r: Address, mask: byte | TuningBits(r, mask) :: Agree(f, g, r, mask)
    ensures DecodeFile(f) == DecodeFile(g)
  {
    assert Agree(f, g, XDIV_PLL, 0xE0) && Agree(f, g, VCO_DRIVE, 0x08);
    SameByte(f, g, PLL_WORD);
    SameByte(f, g, SDM_FRAC_HI);
    SameByte(f, g, SDM_FRAC_LO);
  }

  lemma SamePath(f: File, g: File, enc: PathEncoding)
    requires forall r: Address, mask: byte | TuningBits(r, mask) :: Agree(f, g, r, mask)
    requires PathInFile(f, enc)
    ensures PathInFile(g, enc)
  {
    assert Agree(f, g, DRAIN_PATH, 0x08) && Agree(f, g, MUX_ROUTING, 0xC3);
    SameByte(f, g, TRACK_FILTER);
  }

  /** The registers hold the order that hits the window, and a VCO close to the target times its divider if the steps fit. */
  predicate TunedIffStepsFit(g: File, lo: nat, ref: nat)
    requires 0 < ref
  {
    var enc := DecodeFile(g);
    var order := DecodeOrder(enc.div);
    && 1 <= order <= 6 && InWindow(lo / 1000, order)
    && (Close(DecodeVco(enc, ref) - 0x1_0000 * (lo / 1000 * Divisor(order)), ref) <==> StepsFit(lo / 1000, ref))
  }

  /** The registers hold path and PLL words of a retune, and the VCO they stand for is the right one exactly if the steps fit. */
  ghost predicate Tuned(g: File, lo: nat, ref: nat)
    requires 0 < ref
  {
    DecodeFile(g) == PllWords(lo / 1000, ref) && PathInFile(g, PathFor(lo)) && TunedIffStepsFit(g, lo, ref)
  }

  /**
   End to end, at any reference below 32768 kHz. After a completed retune to `lo`, and any gain and
   bandwidth calls after it, failed or not, the registers decode to the chosen path and PLL words;
   and the VCO they stand for is within a 64th of the reference of the target times the divider
   they stand for exactly when the steps fit, as they do for every target from 6581 kHz on.
   */
  lemma TunedAndStaysTuned(f: File, lo: nat, ref: nat, escalated: bool, run: seq<Call>)
    requires Tunable(lo / 1000) && 0 < ref < 0x8000 && NoRetune(run)
    ensures Tuned(RunFile(PutAll(f, FreqWrites(lo, ref, escalated)), run), lo, ref)
    ensures ref >= 6581 ==> StepsFit(lo / 1000, ref)
  {
    var f1 := PutAll(f, FreqWrites(lo, ref, escalated));
    var g := RunFile(f1, run);
    RetuneDecodes(f, lo, ref, escalated);
    forall r: Address, mask: byte | TuningBits(r, mask)
      ensures Agree(f1, g, r, mask)
    {
      GainsAreInvisibleToTuning(f1, run, r, mask);
    }
    SamePll(f1, g);
    SamePath(f1, g, PathFor(lo));
    SynthesisAccuracy(lo / 1000, ref);
    AllStepsFitIff(ref);
  }

  /** Without anything after it. */
  lemma RetuneTunes(f: File, lo: nat, ref: nat, escalated: bool)
    requires Tunable(lo / 1000) && 0 < ref < 0x8000
    ensures Tuned(PutAll(f, FreqWrites(lo, ref, escalated)), lo, ref)
  {
    TunedAndStaysTuned(f, lo, ref, escalated, []);
  }
}
