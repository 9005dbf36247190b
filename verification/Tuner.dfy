/**
 The device as the driver drives it: a tuner register file behind an I2C gate, the driver's
 shadow of it, and the demodulator's registers. Every transfer may fail, and a failed transfer
 changes nothing.
 */
module Tuner {
  import opened Words
  import opened RegisterFile
  import opened Synthesizer
  import opened TuningPlan
  import opened Shadow
  import opened Baseband
  import Bandwidth
  import Fc0012

  datatype TunerClass = R820T | R820T2 | FC0012 | FC0013 | Unknown

  /** Power-up values of registers 0x05 to 0x1F. */
  const POWER_UP: seq<byte> := [
    0x83, 0x32, 0x75, 0xC0, 0x40, 0xD6, 0x6C, 0xE5, 0x63, 0x75, 0x68, 0x6C, 0x83, 0x80,
    0x00, 0x0F, 0x00, 0xC0, 0x30, 0x48, 0xCC, 0x60, 0x00, 0x54, 0xAE, 0x4A, 0xC0]

  /** The library's integer division of a negative number: toward zero. */
  function TruncDiv(a: int, b: nat): int
    requires 0 < b
  {
    if a >= 0 then a / b else -(-a / b)
  }

  /** A crystal-derived number corrected by ppm. */
  function Corrected(x: nat, ppm: int): nat {
    if ppm == 0 then x else U32(TruncDiv(x * (1000000 + ppm), 1000000))
  }

  /** x * (10^6 + ppm) / 10^6 rounded down, where that is a 32-bit number. */
  lemma CorrectedIs(x: nat, ppm: int, r: nat)
    requires -1_000_000 <= ppm && r < 0x1_0000_0000
    requires 1_000_000 * r <= x * (1_000_000 + ppm) < 1_000_000 * r + 1_000_000
    ensures Corrected(x, ppm) == r
  {
    var scaled := x * (1_000_000 + ppm);
    assert TruncDiv(scaled, 1_000_000) == r;
    assert U32(r) == r;
  }

  /** The corrections, in ppm, under which synthesis divides by zero for no target and is accurate for every one. */
  lemma AccurateCorrections(ppm: int)
    requires -1_000_000 <= ppm <= 1_155_000_000
    ensures var ref := Corrected(XTAL_HZ / 1000, ppm);
            -771_493 <= ppm <= 137_777 <==>
              ref > 0 && (forall target :: Computable(target, ref)) && (forall target | Tunable(target) :: Accurate(target, ref))
  {
    var ref := 28_800 * (1_000_000 + ppm) / 1_000_000;
    CorrectedIs(XTAL_HZ / 1000, ppm, ref);
    if 0 < ref < 0x8000 {
      AccurateEverywhereIff(ref);
    }
    if ref == 0 || ZonesFit(ref) {
      ComputableEverywhereIff(ref);
    }
  }

  /** A correction moves the rates that divide by zero: 100 ppm trades 450,000 Hz for 450,045 Hz. */
  lemma CorrectionMovesZero()
    ensures var xtal := Corrected(XTAL_HZ, 100); DividesByZero(xtal, 450_045) && !DividesByZero(xtal, 450_000)
  {
    assert Corrected(XTAL_HZ, 100) == 28_802_880;
  }

  /** At 1254 ppm 450,560 Hz is stored as itself, although its ratio is 2^28 too small. */
  lemma CorrectionWrapsBack()
    ensures var xtal := Corrected(XTAL_HZ, 1254);
            && !DividesByZero(xtal, 450_560) && !Faithful(xtal, 450_560)
            && WrapsBack(xtal, 450_560) && StoredRate(xtal, 450_560) == 450_560
  {
    assert Corrected(XTAL_HZ, 1254) == 28_836_115;
    WrappingRate(28_836_115, 450_560);
    StoredRateIff(28_836_115, 450_560);
  }

  /** The byte with its bits in reverse: nibbles, then pairs, then single bits change places. */
  function BitRev8(b: byte): byte {
    var nibbles := ((b & 0xF0) >> 4) | ((b & 0x0F) << 4);
    var pairs := ((nibbles & 0xCC) >> 2) | ((nibbles & 0x33) << 2);
    ((pairs & 0xAA) >> 1) | ((pairs & 0x55) << 1)
  }

  /** Bit k comes out as bit 7 - k. */
  lemma BitRev8Reverses(b: byte, k: nat)
    requires k < 8
    ensures (BitRev8(b) >> k) & 1 == (b >> (7 - k)) & 1
  {
    if k == 0 {} else if k == 1 {} else if k == 2 {} else if k == 3 {}
    else if k == 4 {} else if k == 5 {} else if k == 6 {} else {}
  }

  lemma BitRev8Twice(b: byte)
    ensures BitRev8(BitRev8(b)) == b
  {
  }

  /**
   What lock acquisition found: a probe at a time. Current is raised exactly after a first probe
   without lock, success needs a probe with lock, the PLL error two without or no candidate.
   */
  ghost predicate Acquired(before: seq<bool>, after: seq<bool>, rc: Status, escalated: bool, candidate: bool) {
    && (if escalated then before + [false] <= after else before <= after <= before + [true])
    && (rc == Ok ==> candidate && after == before + if escalated then [false, true] else [true])
    && (rc == PllError ==> after == if candidate then before + [false, false] else before)
  }

  /** A write to the demodulator: address, value, bytes. */
  datatype DemodOp = DemodOp(reg: nat, val: nat, width: nat)

  function IfWrites(ifHz: nat): seq<DemodOp> {
    var b := NcoBytes(NcoWord(ifHz));
    [DemodOp(NCO_HI, b[0], 1), DemodOp(NCO_HI + 1, b[1], 1), DemodOp(NCO_HI + 2, b[2], 1)]
  }

  function RatioWrites(ratio: nat): seq<DemodOp> {
    [DemodOp(0x9F, ratio / 0x1_0000 % 0x1_0000, 2), DemodOp(0xA1, ratio % 0x1_0000, 2)]
  }

  /** Soft reset on, then off. */
  const RESET_WRITES: seq<DemodOp> := [DemodOp(0x01, 0x14, 1), DemodOp(0x01, 0x10, 1)]

  /** A rate change: ratio, reset, and the IF, if there is one, that the reset took away. */
  function RateWrites(ratio: nat, ifHz: nat): seq<DemodOp> {
    RatioWrites(ratio) + RESET_WRITES + if ifHz > 0 then IfWrites(ifHz) else []
  }

  /** First of the 20 registers of the FIR. */
  const FIR_START: nat := 0x1C

  class Device {
    const kind: TunerClass
    const hw: array<byte>
    const shadow: array<byte>
    const demod: array<nat>
    var gate: bool
    var ppm: int
    var ifOffsetHz: nat
    var samplingRateHz: nat
    /** Transfers that have failed so far. */
    ghost var faults: nat
    /** What the lock probes have found. */
    ghost var probes: seq<bool>
    /** The writes that have reached the demodulator. */
    ghost var demodLog: seq<DemodOp>

    /** Failures do not go away, and a transfer error means that there has been another one. */
    ghost predicate Blamed(before: nat, rc: Status)
      reads this`faults
    {
      before <= faults && (rc == UsbError ==> before < faults)
    }

    predicate IsR820T() {
      kind.R820T? || kind.R820T2?
    }

    predicate Tracks(reg: Address) {
      IsR820T() && InRange(reg)
    }

    ghost predicate Valid()
    {
      hw.Length == 256 && shadow.Length == NUM_REGS && demod.Length == 256
      && hw != shadow && demod as object != hw && demod as object != shadow
    }

    /** The tuner's registers. */
    ghost function Regs(): File
      requires Valid()
      reads hw
    {
      hw[..]
    }

    /** Registers and shadow together. */
    ghost function Chip(): Chip
      requires Valid()
      reads hw, shadow
    {
      Shadow.Chip(hw[..], shadow[..], IsR820T())
    }

    /** The shadow tells the truth about every register it tracks. */
    ghost predicate Coherent()
      requires Valid()
      reads hw, shadow
    {
      Shadow.Coherent(Chip())
    }

    constructor (kind: TunerClass, hw: array<byte>)
      requires hw.Length == 256
      ensures Valid() && this.hw == hw && this.kind == kind && fresh(shadow) && fresh(demod) && ppm == 0
    {
      this.kind := kind;
      this.hw := hw;
      shadow := new byte[NUM_REGS](_ => 0);
      demod := new nat[256](_ => 0);
      gate, ppm, ifOffsetHz, samplingRateHz := false, 0, 0, 0;
      faults, probes, demodLog := 0, [], [];
    }

    // ---- Transfers ----

    method EnableRepeater(on: bool) returns (rc: Status)
      modifies this`gate, this`faults
      ensures Blamed(old(faults), rc)
      ensures rc in {Ok, UsbError} && gate == if rc == Ok then on else old(gate)
    {
      var ok: bool := *;
      if !ok {
        faults := faults + 1;
        return UsbError;
      }
      gate := on;
      rc := Ok;
    }

    /** One register write on the I2C bus; the gate has to be open. */
    method I2cWrite(reg: Address, val: byte) returns (rc: Status)
      requires Valid() && gate
      modifies hw, this`faults
      ensures Blamed(old(faults), rc)
      ensures rc in {Ok, UsbError} && Regs() == if rc == Ok then old(Regs())[reg := val] else old(Regs())
    {
      var ok: bool := *;
      if !ok {
        faults := faults + 1;
        return UsbError;
      }
      hw[reg] := val;
      rc := Ok;
    }

    /** tuner::write: open the gate, transfer, close the gate whatever came of it. */
    method Write(reg: Address, val: byte) returns (rc: Status)
      requires Valid()
      modifies this`gate, this`faults, hw
      ensures Blamed(old(faults), rc)
      ensures rc in {Ok, UsbError} && Regs() == if rc == Ok then old(Regs())[reg := val] else old(Regs())
    {
      rc := EnableRepeater(true);
      if rc != Ok {
        return;
      }
      rc := I2cWrite(reg, val);
      var _ := EnableRepeater(false);
    }

    method WriteReg(reg: Address, val: byte) returns (rc: Status)
      requires Valid()
      modifies this`gate, this`faults, hw, shadow
      ensures Blamed(old(faults), rc)
      ensures rc in {Ok, UsbError} && Chip() == if rc == Ok then WriteThrough(old(Chip()), reg, val) else old(Chip())
    {
      rc := Write(reg, val);
      if rc == Ok && Tracks(reg) {
        shadow[reg - REG_START] := val;
      }
    }

    /** A register as the chip puts it on the bus: the R820T sends its bits in reverse. */
    function Sent(reg: Address): byte
      requires Valid()
      reads hw
    {
      if IsR820T() then BitRev8(hw[reg]) else hw[reg]
    }

    /** A register read: in sequence from register 0 on the R820T, which ends at 0x1F, and directly on the FC001x. */
    method ReadReg(reg: Address) returns (rc: Status, val: byte)
      requires Valid()
      modifies this`gate, this`faults
      ensures Blamed(old(faults), rc)
      ensures rc in {Ok, UsbError, ParamError} && (rc == Ok ==> val == hw[reg]) && (rc == ParamError ==> reg >= 32)
    {
      val := 0;
      rc := EnableRepeater(true);
      if rc != Ok {
        return;
      }
      if !kind.FC0012? && !kind.FC0013? && reg + 1 > 32 {
        var _ := EnableRepeater(false);
        return ParamError, val;
      }
      var ok: bool := *;
      if ok {
        var raw := Sent(reg);
        rc, val := Ok, if IsR820T() then BitRev8(raw) else raw;
        BitRev8Twice(hw[reg]);
      } else {
        rc, faults := UsbError, faults + 1;
      }
      var _ := EnableRepeater(false);
    }

    /** A read-modify-write of what the driver takes the register to hold. */
    method Rmw(reg: Address, val: byte, mask: byte) returns (rc: Status)
      requires Valid()
      modifies this`gate, this`faults, hw, shadow
      ensures Blamed(old(faults), rc)
      ensures rc in {Ok, UsbError, ParamError} && (rc == ParamError ==> reg >= 32)
      ensures Chip() == if rc == Ok then Carry(old(Chip()), Field(reg, val, mask)) else old(Chip())
    {
      var cur: byte;
      MergeExtremes(Known(Chip(), reg), val);
      if Tracks(reg) {
        cur := shadow[reg - REG_START];
      } else {
        rc, cur := ReadReg(reg);
        if rc != Ok {
          return;
        }
      }
      rc := WriteReg(reg, Merge(cur, val, mask));
    }

    /** Several writes under one opening of the gate; the result is that of the first failure, or of closing it. */
    method WriteBatch(pairs: seq<(Address, byte)>) returns (rc: Status, ghost done: nat)
      requires Valid()
      modifies this`gate, this`faults, hw, shadow
      ensures Blamed(old(faults), rc)
      ensures rc in {Ok, UsbError} && done <= |pairs| && (rc == Ok ==> done == |pairs|)
      ensures Chip() == CarryAll(old(Chip()), Fulls(pairs[..done]))
    {
      done := 0;
      rc := EnableRepeater(true);
      if rc != Ok {
        return;
      }
      for i := 0 to |pairs|
        invariant gate && done == i && faults >= old(faults)
        invariant Chip() == CarryAll(old(Chip()), Fulls(pairs[..i]))
      {
        var (reg, val) := pairs[i];
        rc := I2cWrite(reg, val);
        if rc != Ok {
          var _ := EnableRepeater(false);
          return;
        }
        if Tracks(reg) {
          shadow[reg - REG_START] := val;
        }
        FullsSnoc(pairs, i);
        done := i + 1;
      }
      rc := EnableRepeater(false);
    }

    /** Intents become full writes or read-modify-writes, in order, up to the first failure. */
    method LowerIntents(s: IntentSeq) returns (rc: Status, ghost done: nat)
      requires Valid() && s.Valid()
      modifies this`gate, this`faults, hw, shadow
      ensures Blamed(old(faults), rc)
      ensures done <= |s.Contents()| && (rc == Ok <==> done == |s.Contents()|)
      ensures rc in {Ok, UsbError, ParamError} && (rc == ParamError ==> s.Contents()[done].target >= 32)
      ensures Chip() == CarryAll(old(Chip()), s.Contents()[..done])
    {
      rc, done := Ok, 0;
      ghost var ws := s.Contents();
      for i := 0 to s.length
        invariant rc == Ok && done == i && s.Contents() == ws && faults >= old(faults)
        invariant Chip() == CarryAll(old(Chip()), ws[..i])
      {
        var w := s.entries[i];
        assert w == ws[i] && ws[..i + 1][..i] == ws[..i];
        if !w.action.SettleDelay? {
          if w.mask == 0xFF || w.action.AssignFull? {
            rc := WriteReg(w.target, w.value);
          } else {
            rc := Rmw(w.target, w.value, w.mask);
          }
          if rc != Ok {
            return;
          }
        }
        done := i + 1;
      }
    }

    // ---- Tuner operations ----

    /** Compose a list of intents and lower it. */
    method LowerAll(ws: seq<Intent>) returns (rc: Status, ghost done: nat)
      requires Valid() && |ws| <= SEQ_CAPACITY
      modifies this`gate, this`faults, hw, shadow
      ensures Blamed(old(faults), rc)
      ensures done <= |ws| && (rc == Ok <==> done == |ws|)
      ensures rc in {Ok, UsbError, ParamError} && (rc == ParamError ==> ws[done].target >= 32)
      ensures Chip() == CarryAll(old(Chip()), ws[..done])
    {
      var s := new IntentSeq();
      s.Compose(ws);
      rc, done := LowerIntents(s);
    }

    /** Carry out a list on registers that can also be read back; only a failed transfer can end it early. */
    method LowerLow(ws: seq<Intent>) returns (rc: Status, ghost trace: seq<Intent>)
      requires Valid() && |ws| <= SEQ_CAPACITY && LowTargets(ws)
      modifies this`gate, this`faults, hw, shadow
      ensures Blamed(old(faults), rc)
      ensures rc in {Ok, UsbError} && trace <= ws && (rc == Ok ==> trace == ws)
      ensures Chip() == CarryAll(old(Chip()), trace)
    {
      ghost var done;
      rc, done := LowerAll(ws);
      trace := ws[..done];
      assert rc == Ok ==> ws[..done] == ws;
    }

    /** A single masked write; on failure the registers are as before. */
    method RmwIntent(w: Intent) returns (rc: Status)
      requires Valid() && w.action.SetField? && w.mask != 0xFF
      modifies this`gate, this`faults, hw, shadow
      ensures Blamed(old(faults), rc)
      ensures rc in {Ok, UsbError, ParamError} && (rc == ParamError ==> w.target >= 32)
      ensures Chip() == if rc == Ok then CarryAll(old(Chip()), [w]) else old(Chip())
    {
      ghost var before := Chip();
      rc := Rmw(w.target, w.value, w.mask);
      CarryAllSnoc(before, [], w);
      assert [] + [w] == [w];
    }

    method SetLnaGain(index: int) returns (rc: Status)
      requires Valid()
      modifies this`gate, this`faults, hw, shadow
      ensures Blamed(old(faults), rc)
      ensures rc in {Ok, UsbError}
      ensures Chip() == if rc == Ok then CarryAll(old(Chip()), [LnaWrite(index)]) else old(Chip())
    {
      rc := RmwIntent(LnaWrite(index));
    }

    method SetMixerGain(index: int) returns (rc: Status)
      requires Valid()
      modifies this`gate, this`faults, hw, shadow
      ensures Blamed(old(faults), rc)
      ensures rc in {Ok, UsbError}
      ensures Chip() == if rc == Ok then CarryAll(old(Chip()), [MixerWrite(index)]) else old(Chip())
    {
      rc := RmwIntent(MixerWrite(index));
    }

    method SetVgaGain(index: int) returns (rc: Status)
      requires Valid()
      modifies this`gate, this`faults, hw, shadow
      ensures Blamed(old(faults), rc)
      ensures rc in {Ok, UsbError}
      ensures Chip() == if rc == Ok then CarryAll(old(Chip()), [VgaWrite(index)]) else old(Chip())
    {
      rc := RmwIntent(VgaWrite(index));
    }

    /** Cold start: the power-up image into the shadow, the shadow into the chip, then the default gains. */
    method Init() returns (rc: Status)
      requires Valid() && IsR820T()
      modifies this`gate, this`faults, hw, shadow
      ensures Blamed(old(faults), rc)
      ensures rc in {Ok, UsbError}
      ensures rc == Ok ==>
                exists c: Chip :: c.shadowed && c.shadow == POWER_UP && Shadow.Coherent(c)
                                  && Chip() == CarryAll(c, [LnaWrite(-1)] + [MixerWrite(-1)] + [VgaWrite(11)])
    {
      for i := 0 to NUM_REGS
        invariant faults == old(faults) && forall k | 0 <= k < i :: shadow[k] == POWER_UP[k]
      {
        shadow[i] := POWER_UP[i];
      }
      ghost var n;
      rc, n := Flush();
      if rc != Ok {
        return;
      }
      ghost var c := Chip();
      assert c.shadow == POWER_UP;
      rc := SetLnaGain(-1);
      if rc != Ok {
        return;
      }
      rc := SetMixerGain(-1);
      if rc != Ok {
        return;
      }
      rc := SetVgaGain(11);
      if rc == Ok {
        CarryAllAppend(c, [LnaWrite(-1)], [MixerWrite(-1)]);
        CarryAllAppend(c, [LnaWrite(-1)] + [MixerWrite(-1)], [VgaWrite(11)]);
      }
    }

    /** Write the tracked registers from the shadow, which keeps its contents, up to the first failure. */
    method Flush() returns (rc: Status, ghost n: nat)
      requires Valid() && IsR820T()
      modifies this`gate, this`faults, hw, shadow
      ensures Blamed(old(faults), rc)
      ensures rc in {Ok, UsbError} && n <= NUM_REGS && (rc == Ok <==> n == NUM_REGS)
      ensures Chip() == Flushed(old(Chip()), n) && Chip().shadow == old(Chip()).shadow && (rc == Ok ==> Coherent())
    {
      rc, n := Ok, 0;
      ghost var start := Chip();
      FlushedIs(start, n);
      for i := 0 to NUM_REGS
        invariant rc == Ok && n == i && Chip() == Flushed(start, i) && Chip().shadow == start.shadow && faults >= old(faults)
      {
        rc := WriteReg(REG_START + i, shadow[i]);
        if rc != Ok {
          return;
        }
        n := i + 1;
        FlushedIs(start, n);
      }
      FullFlushIsCoherent(start);
    }

    /**
     Whatever happened to the chip's registers, a successful reset of an R820T brings them back to
     the shadow. An FC0012 is started afresh instead; the other classes are refused.
     */
    method ResetTuner() returns (rc: Status, ghost n: nat)
      requires Valid()
      modifies this`gate, this`faults, hw, shadow
      ensures Blamed(old(faults), rc)
      ensures rc == ParamError <==> kind != R820T && kind != FC0012
      ensures rc == ParamError ==> Chip() == old(Chip())
      ensures kind == R820T ==>
                && rc in {Ok, UsbError} && n <= NUM_REGS && Chip() == Flushed(old(Chip()), n)
                && Chip().shadow == old(Chip()).shadow && (rc == Ok ==> n == NUM_REGS && Coherent())
      ensures kind == FC0012 ==>
                && rc in {Ok, UsbError} && Chip().shadow == old(Chip()).shadow
                && if rc == Ok then Fc0012.StartedAfresh(old(Regs()), Regs())
                   else n < |Fc0012.INIT_WRITES| && Regs() == PutAll(old(Regs()), Fc0012.INIT_WRITES[..n])
    {
      n := 0;
      if kind != R820T {
        if kind == FC0012 {
          var chip := new Fc0012.Chip(hw, gate);
          rc, n := chip.Init();
          gate, faults := chip.gate, faults + chip.faults;
          return;
        }
        return ParamError, n;
      }
      rc := EnableRepeater(true);
      if rc != Ok {
        return;
      }
      rc, n := Flush();
      var _ := EnableRepeater(false);
    }

    /** Lock status is whatever the chip says. */
    method ProbeLock() returns (rc: Status, locked: bool)
      requires Valid()
      modifies this`gate, this`faults, this`probes
      ensures Blamed(old(faults), rc)
      ensures rc in {Ok, UsbError} && probes == if rc == Ok then old(probes) + [locked] else old(probes)
    {
      var b: byte;
      rc, b := ReadReg(2);
      locked := *;
      if rc == Ok {
        probes := probes + [locked];
      }
    }

    /** Probe; if there is no lock, raise the VCO current and probe again; then fine-step autotune. */
    method AcquireLock() returns (rc: Status, ghost escalated: bool, ghost trace: seq<Intent>)
      requires Valid()
      modifies this`gate, this`faults, this`probes, hw, shadow
      ensures Blamed(old(faults), rc)
      ensures Chip() == CarryAll(old(Chip()), trace)
      ensures trace <= LockWrites(escalated) && (rc == Ok ==> trace == LockWrites(escalated))
      ensures rc in {Ok, UsbError, PllError} && Acquired(old(probes), probes, rc, escalated, true)
    {
      escalated, trace := false, [];
      var locked;
      rc, locked := ProbeLock();
      if rc != Ok {
        return;
      }
      if !locked {
        escalated := true;
        rc := RmwIntent(ESCALATE);
        if rc != Ok {
          return;
        }
        trace := [ESCALATE];
        rc, locked := ProbeLock();
        if rc != Ok {
          return;
        }
        if !locked {
          return PllError, escalated, trace;
        }
      }
      rc := RmwIntent(FINE_STEP);
      if rc == Ok {
        CarryAllAppend(old(Chip()), trace, [FINE_STEP]);
        trace := trace + [FINE_STEP];
      }
    }

    function RefKhz(): nat
      reads this`ppm
    {
      Corrected(XTAL_HZ / 1000, ppm)
    }

    lemma RefKhzIs()
      ensures ppm >= -1_000_000 ==>
                forall ref: nat | ref < 0x1_0000_0000 && 1_000_000 * ref <= 28_800 * (1_000_000 + ppm) < 1_000_000 * ref + 1_000_000 ::
                  RefKhz() == ref
    {
      if ppm >= -1_000_000 {
        forall ref: nat | ref < 0x1_0000_0000 && 1_000_000 * ref <= 28_800 * (1_000_000 + ppm) < 1_000_000 * ref + 1_000_000
          ensures RefKhz() == ref
        {
          CorrectedIs(28_800, ppm, ref);
        }
      }
    }

    method SetMux(lo: nat) returns (rc: Status, ghost trace: seq<Intent>)
      requires Valid()
      modifies this`gate, this`faults, hw, shadow
      ensures Blamed(old(faults), rc)
      ensures Chip() == CarryAll(old(Chip()), trace)
      ensures rc in {Ok, UsbError} && trace <= PathWrites(PathFor(lo)) && (rc == Ok ==> trace == PathWrites(PathFor(lo)))
    {
      LowLists(PathFor(lo), false);
      rc, trace := LowerLow(PathWrites(PathFor(lo)));
    }

    /** Write a block of intents, then acquire lock. */
    method LowerAndLock(ws: seq<Intent>) returns (rc: Status, ghost escalated: bool, ghost trace: seq<Intent>)
      requires Valid() && |ws| <= SEQ_CAPACITY && LowTargets(ws)
      modifies this`gate, this`faults, this`probes, hw, shadow
      ensures Blamed(old(faults), rc)
      ensures Chip() == CarryAll(old(Chip()), trace)
      ensures trace <= ws + LockWrites(escalated) && (rc == Ok ==> trace == ws + LockWrites(escalated))
      ensures rc in {Ok, UsbError, PllError} && Acquired(old(probes), probes, rc, escalated, true)
    {
      escalated := false;
      ghost var tail := [];
      rc, trace := LowerLow(ws);
      if rc != Ok {
        PrefixGrows(trace, ws, LockWrites(escalated));
        return;
      }
      rc, escalated, tail := AcquireLock();
      CarryAllAppend(old(Chip()), ws, tail);
      trace := ws + tail;
      PrefixAfter(ws, tail, LockWrites(escalated));
    }

    /** Solve, pack, write, lock. Without a candidate nothing is written. */
    method Synthesise(lo: nat) returns (rc: Status, ghost escalated: bool, ghost trace: seq<Intent>)
      requires Valid() && lo < 0x1_0000_0000 && Computable(lo / 1000, RefKhz())
      modifies this`gate, this`faults, this`probes, hw, shadow
      ensures Blamed(old(faults), rc)
      ensures Chip() == CarryAll(old(Chip()), trace)
      ensures var full := PllStage(lo, RefKhz(), escalated);
              trace <= full && (rc == Ok ==> trace == full)
      ensures rc in {Ok, UsbError, PllError} && Acquired(old(probes), probes, rc, escalated, Tunable(lo / 1000))
    {
      var enc;
      rc, enc := Solve(lo / 1000, RefKhz());
      if rc != Ok {
        return rc, false, [];
      }
      SynthIsLow(enc);
      rc, escalated, trace := LowerAndLock(SynthWrites(enc));
    }

    method SetPll(lo: nat) returns (rc: Status, ghost escalated: bool, ghost trace: seq<Intent>)
      requires Valid() && lo < 0x1_0000_0000 && Computable(lo / 1000, RefKhz())
      modifies this`gate, this`faults, this`probes, hw, shadow
      ensures Blamed(old(faults), rc)
      ensures Chip() == CarryAll(old(Chip()), trace)
      ensures var full := PllStage(lo, RefKhz(), escalated);
              trace <= full && (rc == Ok ==> trace == full)
      ensures rc in {Ok, UsbError, PllError} && Acquired(old(probes), probes, rc, escalated, Tunable(lo / 1000))
      // the reference is the crystal in kHz, corrected and rounded down
      ensures ppm >= -1_000_000 ==>
                forall ref: nat | ref < 0x1_0000_0000 && 1_000_000 * ref <= 28_800 * (1_000_000 + ppm) < 1_000_000 * ref + 1_000_000 ::
                  trace <= PllStage(lo, ref, escalated) && (rc == Ok ==> trace == PllStage(lo, ref, escalated))
    {
      rc, escalated, trace := Synthesise(lo);
      RefKhzIs();
    }

    /** The first two stages of a retune. */
    method RouteAndSynthesise(lo: nat) returns (rc: Status, ghost escalated: bool, ghost trace: seq<Intent>)
      requires Valid() && lo < 0x1_0000_0000 && Computable(lo / 1000, RefKhz())
      modifies this`gate, this`faults, this`probes, hw, shadow
      ensures Blamed(old(faults), rc)
      ensures Chip() == CarryAll(old(Chip()), trace)
      ensures var full := PathWrites(PathFor(lo)) + PllStage(lo, RefKhz(), escalated);
              trace <= full && (rc == Ok ==> trace == full)
      ensures rc in {Ok, UsbError, PllError} && Acquired(old(probes), probes, rc, escalated, Tunable(lo / 1000))
    {
      escalated := false;
      ghost var c, pll := Chip(), [];
      rc, trace := SetMux(lo);
      if rc != Ok {
        PrefixGrows(trace, PathWrites(PathFor(lo)), PllStage(lo, RefKhz(), escalated));
        return;
      }
      rc, escalated, pll := SetPll(lo);
      CarryAllAppend(c, trace, pll);
      PrefixAfter(trace, pll, PllStage(lo, RefKhz(), escalated));
      trace := trace + pll;
    }

    /** Path, synthesis, analog profile; a failure anywhere ends the retune there. */
    method AllStages(lo: nat) returns (rc: Status, ghost escalated: bool, ghost trace: seq<Intent>)
      requires Valid() && lo < 0x1_0000_0000 && Computable(lo / 1000, RefKhz())
      modifies this`gate, this`faults, this`probes, hw, shadow
      ensures Blamed(old(faults), rc)
      ensures Chip() == CarryAll(old(Chip()), trace)
      ensures trace <= FreqWrites(lo, RefKhz(), escalated) && (rc == Ok ==> trace == FreqWrites(lo, RefKhz(), escalated))
      ensures rc in {Ok, UsbError, PllError} && Acquired(old(probes), probes, rc, escalated, Tunable(lo / 1000))
    {
      ghost var c, analog := Chip(), [];
      rc, escalated, trace := RouteAndSynthesise(lo);
      StagesOfRetune(lo, RefKhz(), escalated);
      if rc == Ok {
        LowLists(PathFor(lo), false);
        rc, analog := LowerLow(AnalogWrites());
        CarryAllAppend(c, trace, analog);
        PrefixAfter(trace, analog, AnalogWrites());
        trace := trace + analog;
      }
    }

    method SetFreq(freqHz: nat, ifHz: nat) returns (rc: Status, ghost escalated: bool, ghost trace: seq<Intent>)
      requires Valid() && Computable(U32(freqHz + ifHz) / 1000, RefKhz())
      modifies this`gate, this`faults, this`probes, hw, shadow
      ensures Blamed(old(faults), rc)
      ensures Chip() == CarryAll(old(Chip()), trace)
      ensures var lo := U32(freqHz + ifHz);
              && trace <= FreqWrites(lo, RefKhz(), escalated) && (rc == Ok ==> trace == FreqWrites(lo, RefKhz(), escalated))
              && Acquired(old(probes), probes, rc, escalated, Tunable(lo / 1000))
      ensures rc in {Ok, UsbError, PllError}
      // the reference is the crystal in kHz, corrected and rounded down, and a coherent device ends coherent and tuned by it
      ensures ppm >= -1_000_000 ==>
                forall ref: nat | ref < 0x1_0000_0000 && 1_000_000 * ref <= 28_800 * (1_000_000 + ppm) < 1_000_000 * ref + 1_000_000 ::
                  var lo := U32(freqHz + ifHz);
                  && trace <= FreqWrites(lo, ref, escalated) && (rc == Ok ==> trace == FreqWrites(lo, ref, escalated))
                  && (rc == Ok && old(Coherent()) && 0 < ref < 0x8000 ==> Coherent() && Tuned(Regs(), lo, ref))
    {
      var lo := U32(freqHz + ifHz);
      ghost var c := Chip();
      rc, escalated, trace := AllStages(lo);
      RefKhzIs();
      if rc == Ok && Shadow.Coherent(c) && 0 < RefKhz() < 0x8000 {
        CarryAllIsPutAll(c, trace);
        RetuneTunes(c.hw, lo, RefKhz(), escalated);
      }
    }

    // ---- Demodulator ----

    /** One or two bytes, high byte first. */
    method DemodWrite(reg: nat, val: nat, width: nat) returns (rc: Status)
      requires Valid() && width in {1, 2} && reg + width <= 256
      modifies demod, this`faults, this`demodLog
      ensures Blamed(old(faults), rc)
      ensures rc in {Ok, UsbError}
      ensures demodLog == if rc == Ok then old(demodLog) + [DemodOp(reg, val, width)] else old(demodLog)
      ensures demod[..] == if rc != Ok then old(demod[..])
                           else if width == 1 then old(demod[..])[reg := U8(val)]
                           else old(demod[..])[reg := U8(val / 256)][reg + 1 := U8(val)]
    {
      var ok: bool := *;
      if !ok {
        faults := faults + 1;
        return UsbError;
      }
      if width == 1 {
        demod[reg] := U8(val);
      } else {
        demod[reg] := U8(val / 256);
        demod[reg + 1] := U8(val);
      }
      demodLog := demodLog + [DemodOp(reg, val, width)];
      rc := Ok;
    }

    /** Pack the shipped kernel and write it, byte by byte, to 0x1C to 0x2F. */
    method DeployFilterCoefficients() returns (rc: Status)
      requires Valid()
      modifies demod, this`faults, this`demodLog
      ensures Blamed(old(faults), rc) && rc in {Ok, UsbError}
      ensures rc == Ok ==> forall k | 0 <= k < 16 :: Tap(demod[0x1C..0x30], k) == FILTER_KERNEL[k]
      ensures forall r | 0 <= r < 256 && !(0x1C <= r < 0x30) :: demod[r] == old(demod[r])
    {
      var packed;
      ghost var order;
      packed, order := PackKernel(FILTER_KERNEL);
      ghost var bytes := packed[..];
      rc := Ok;
      for k := 0 to 20
        invariant rc == Ok && faults >= old(faults) && packed[..] == bytes
        invariant forall j | 0 <= j < k :: demod[FIR_START + j] == bytes[j]
        invariant forall r | 0 <= r < 256 && !(FIR_START <= r < FIR_START + 20) :: demod[r] == old(demod[r])
      {
        assert packed[k] == bytes[k];
        SmallNumbersStay(packed[k]);
        rc := DemodWrite(FIR_START + k, packed[k], 1);
        if rc != Ok {
          return;
        }
      }
      assert demod[FIR_START..FIR_START + 20] == bytes;
      FirRoundTrip(bytes, FILTER_KERNEL);
    }

    /** The NCO word in the demodulator. */
    ghost function Nco(): int
      requires Valid()
      reads demod
    {
      DecodeNco(demod[NCO_HI..NCO_HI + 3])
    }

    /** The resampler ratio in the demodulator. */
    ghost function RatioWord(): nat
      requires Valid()
      reads demod
    {
      0x100_0000 * demod[0x9F] + 0x1_0000 * demod[0xA0] + 0x100 * demod[0xA1] + demod[0xA2]
    }

    method SetIfFreq(ifHz: nat) returns (rc: Status)
      requires Valid() && ifHz < 0x1_0000_0000
      modifies demod, this`faults, this`demodLog, this`ifOffsetHz
      ensures Blamed(old(faults), rc)
      ensures rc == Ok ==> demodLog == old(demodLog) + IfWrites(ifHz)
      ensures rc in {Ok, UsbError} && ifOffsetHz == if rc == Ok then ifHz else old(ifOffsetHz)
      ensures rc == Ok ==> demod[0x19..0x1C] == NcoBytes(NcoWord(ifHz))
      ensures forall r | 0 <= r < 256 && !(0x19 <= r < 0x1C) :: demod[r] == old(demod[r])
    {
      var b := NcoBytes(NcoWord(ifHz));
      rc := DemodWrite(NCO_HI, b[0], 1);
      if rc != Ok {
        return;
      }
      rc := DemodWrite(NCO_HI + 1, b[1], 1);
      if rc != Ok {
        return;
      }
      rc := DemodWrite(NCO_HI + 2, b[2], 1);
      if rc != Ok {
        return;
      }
      ifOffsetHz := ifHz;
    }

    /** Select the channel filter, then tune the demodulator to the IF that centres it. */
    method SetBandwidth(bwKhz: nat)
      returns (rc: Status, ghost reg0a: byte, ghost reg0b: byte, ghost index: nat, ghost trace: seq<Intent>)
      requires Valid()
      modifies this`gate, this`faults, hw, shadow, demod, this`demodLog, this`ifOffsetHz
      ensures Blamed(old(faults), rc)
      ensures Chip() == CarryAll(old(Chip()), trace) && trace <= FilterWrites(reg0a, reg0b)
      ensures rc in {Ok, UsbError} && if rc == Ok then 0 < ifOffsetHz <= 4_570_000 else ifOffsetHz == old(ifOffsetHz)
      ensures bwKhz > 7000 ==> reg0a == 0x10 && reg0b == 0x0B && (rc == Ok ==> ifOffsetHz == 4_570_000)
      ensures 6000 < bwKhz <= 7000 ==> reg0a == 0x10 && reg0b == 0x2A && (rc == Ok ==> ifOffsetHz == 4_570_000)
      ensures 2430 < bwKhz <= 6000 ==> reg0a == 0x10 && reg0b == 0x6B && (rc == Ok ==> ifOffsetHz == 3_570_000)
      ensures rc == Ok ==> demodLog == old(demodLog) + IfWrites(ifOffsetHz)
      ensures bwKhz <= 2430 && rc == Ok ==>
                reg0a == 0 && ifOffsetHz % 1000 == 0 && Bandwidth.Fitting(bwKhz, index, reg0b, ifOffsetHz / 1000)
      ensures rc == Ok ==> trace == FilterWrites(reg0a, reg0b) && Nco() == -(ifOffsetHz * 0x40_0000 / XTAL_HZ)
      ensures forall r | 0 <= r < 256 && !(NCO_HI <= r < NCO_HI + 3) :: demod[r] == old(demod[r])
    {
      var a, b, ifKhz;
      a, b, ifKhz, index := Bandwidth.SelectFilter(bwKhz);
      reg0a, reg0b := a, b;
      rc, trace := LowerLow(FilterWrites(a, b));
      if rc != Ok {
        return;
      }
      rc := SetIfFreq(ifKhz * 1000);
      NcoAccuracy(ifKhz * 1000);
    }

    /**
     The soft reset clears the NCO, so a stored IF is programmed again after it. Its register is also
     the one that opens the gate, which neither of its values does.
     */
    method DdcReset() returns (rc: Status)
      requires Valid()
      modifies demod, this`gate, this`faults, this`demodLog
      ensures Blamed(old(faults), rc)
      ensures rc in {Ok, UsbError} && (rc == Ok ==> demodLog == old(demodLog) + RESET_WRITES && demod[1] == 0x10 && !gate)
      ensures forall r | 0 <= r < 256 && r != 1 && !(NCO_HI <= r < NCO_HI + 3) :: demod[r] == old(demod[r])
    {
      rc := DemodWrite(0x01, 0x14, 1);
      if rc != Ok {
        return;
      }
      gate := false;
      demod[NCO_HI], demod[NCO_HI + 1], demod[NCO_HI + 2] := 0, 0, 0;
      rc := DemodWrite(0x01, 0x10, 1);
    }

    method WriteRatio(ratio: nat) returns (rc: Status)
      requires Valid() && ratio < 0x1000_0000
      modifies demod, this`faults, this`demodLog
      ensures Blamed(old(faults), rc)
      ensures rc in {Ok, UsbError} && (rc == Ok ==> RatioWord() == ratio && demodLog == old(demodLog) + RatioWrites(ratio))
      ensures forall r | 0 <= r < 256 && !(0x9F <= r < 0xA3) :: demod[r] == old(demod[r])
    {
      rc := DemodWrite(0x9F, ratio / 0x1_0000 % 0x1_0000, 2);
      if rc != Ok {
        return;
      }
      rc := DemodWrite(0xA1, ratio % 0x1_0000, 2);
      RatioBytes(ratio);
    }

    /**
     Ratio, reset, and the IF again. From 2 MS/s on an R820T also gets the channel filter that
     fits the rate.
     */
    method SetSampleRate(rate: nat) returns (rc: Status, ghost trace: seq<Intent>)
      requires Valid() && ifOffsetHz < 0x1_0000_0000
      requires Accepted(rate) ==> !DividesByZero(Corrected(XTAL_HZ, ppm), rate)
      modifies this`gate, this`faults, hw, shadow, demod, this`demodLog, this`ifOffsetHz, this`samplingRateHz
      ensures Blamed(old(faults), rc)
      ensures Chip() == CarryAll(old(Chip()), trace)
      ensures !(225_000 <= rate <= 3_200_000) ==>
                rc == ParamError && samplingRateHz == old(samplingRateHz) && demod[..] == old(demod[..])
      ensures 225_000 <= rate <= 3_200_000 ==> rc in {Ok, UsbError} && samplingRateHz == StoredRate(Corrected(XTAL_HZ, ppm), rate)
      ensures !(225_000 <= rate <= 3_200_000) ==> trace == [] && ifOffsetHz == old(ifOffsetHz)
      // an R820T at 2 MS/s or more gets the filter for its rate
      ensures Accepted(rate) && !((kind.R820T? || kind.R820T2?) && samplingRateHz >= 2_000_000) ==> trace == [] && ifOffsetHz == old(ifOffsetHz)
      ensures Accepted(rate) && (kind.R820T? || kind.R820T2?) && samplingRateHz >= 2_000_000 && rc == Ok ==>
                && (samplingRateHz <= 2_430_999 ==> FilterFits(trace))
                && (2_430_999 < samplingRateHz <= 6_000_999 ==>
                      trace == [Field(0x0A, 0x10, 0x10), Field(0x0B, 0x6B, 0xEF)] && ifOffsetHz == 3_570_000)
                && (6_000_999 < samplingRateHz <= 7_000_999 ==>
                      trace == [Field(0x0A, 0x10, 0x10), Field(0x0B, 0x2A, 0xEF)] && ifOffsetHz == 4_570_000)
                && (7_000_999 < samplingRateHz ==>
                      trace == [Field(0x0A, 0x10, 0x10), Field(0x0B, 0x0B, 0xEF)] && ifOffsetHz == 4_570_000)
      ensures rc == Ok ==> RatioWord() == Ratio(Corrected(XTAL_HZ, ppm), rate)
      // the IF with its filter, the ratio, high half first, reset on, reset off, and the IF again
      ensures rc == Ok ==>
                var ratio := Ratio(Corrected(XTAL_HZ, ppm), rate);
                demodLog == old(demodLog) + (if NeedsFilter() then IfWrites(ifOffsetHz) else [])
                            + [DemodOp(0x9F, ratio / 0x1_0000, 2), DemodOp(0xA1, ratio % 0x1_0000, 2)]
                            + [DemodOp(0x01, 0x14, 1), DemodOp(0x01, 0x10, 1)]
                            + if ifOffsetHz > 0 then IfWrites(ifOffsetHz) else []
      ensures rc == Ok ==> !gate
      ensures rc == Ok && ifOffsetHz > 0 ==> demod[NCO_HI..NCO_HI + 3] == NcoBytes(NcoWord(ifOffsetHz))
      ensures forall r | 0 <= r < 256 && r != 1 && !(NCO_HI <= r < NCO_HI + 3) && !(0x9F <= r < 0xA3) :: demod[r] == old(demod[r])
    {
      trace := [];
      if !Accepted(rate) {
        return ParamError, trace;
      }
      var xtal := Corrected(XTAL_HZ, ppm);
      var ratio := Ratio(xtal, rate);
      samplingRateHz := StoredRate(xtal, rate);
      rc, trace := FilterForRate();
      if rc != Ok {
        return;
      }
      rc := ApplyRate(ratio);
      RateLog(old(demodLog), if NeedsFilter() then IfWrites(ifOffsetHz) else [], ratio,
              if ifOffsetHz > 0 then IfWrites(ifOffsetHz) else []);
    }

    /** The channel filter for the sample rate, where one is called for. */
    method FilterForRate() returns (rc: Status, ghost trace: seq<Intent>)
      requires Valid() && ifOffsetHz < 0x1_0000_0000
      modifies this`gate, this`faults, hw, shadow, demod, this`demodLog, this`ifOffsetHz
      ensures Blamed(old(faults), rc) && rc in {Ok, UsbError} && ifOffsetHz < 0x1_0000_0000
      ensures Chip() == CarryAll(old(Chip()), trace)
      // an R820T at 2 MS/s or more gets the filter for its rate
      ensures !((kind.R820T? || kind.R820T2?) && samplingRateHz >= 2_000_000) ==> rc == Ok && trace == [] && ifOffsetHz == old(ifOffsetHz)
      ensures (kind.R820T? || kind.R820T2?) && samplingRateHz >= 2_000_000 && rc == Ok ==>
                && (samplingRateHz <= 2_430_999 ==> FilterFits(trace))
                && (2_430_999 < samplingRateHz <= 6_000_999 ==>
                      trace == [Field(0x0A, 0x10, 0x10), Field(0x0B, 0x6B, 0xEF)] && ifOffsetHz == 3_570_000)
                && (6_000_999 < samplingRateHz <= 7_000_999 ==>
                      trace == [Field(0x0A, 0x10, 0x10), Field(0x0B, 0x2A, 0xEF)] && ifOffsetHz == 4_570_000)
                && (7_000_999 < samplingRateHz ==>
                      trace == [Field(0x0A, 0x10, 0x10), Field(0x0B, 0x0B, 0xEF)] && ifOffsetHz == 4_570_000)
      ensures rc == Ok ==> demodLog == old(demodLog) + if NeedsFilter() then IfWrites(ifOffsetHz) else []
      ensures forall r | 0 <= r < 256 && !(NCO_HI <= r < NCO_HI + 3) :: demod[r] == old(demod[r])
    {
      rc, trace := Ok, [];
      if NeedsFilter() {
        ghost var a, b, index;
        rc, a, b, index, trace := SetBandwidth(samplingRateHz / 1000);
        assert rc == Ok && samplingRateHz <= 2_430_999 ==> FilterFits(trace);
      }
    }

    /** An R820T at 2 MS/s or more. */
    predicate NeedsFilter()
      reads this`samplingRateHz
    {
      IsR820T() && samplingRateHz >= 2000000
    }

    /** The writes choose the filter for the sample rate, and the IF is the one that centres it. */
    ghost predicate FilterFits(trace: seq<Intent>)
      reads this`samplingRateHz, this`ifOffsetHz
    {
      exists index: nat, reg0b: byte ::
        trace == FilterWrites(0, reg0b) && Bandwidth.Fitting(samplingRateHz / 1000, index, reg0b, ifOffsetHz / 1000)
    }

    /** The demodulator's part of a rate change. */
    method ApplyRate(ratio: nat) returns (rc: Status)
      requires Valid() && ratio < 0x1000_0000 && ifOffsetHz < 0x1_0000_0000
      modifies demod, this`gate, this`faults, this`demodLog, this`ifOffsetHz
      ensures Blamed(old(faults), rc) && rc in {Ok, UsbError}
      ensures ifOffsetHz == old(ifOffsetHz)
      ensures rc == Ok ==> demodLog == old(demodLog) + RateWrites(ratio, ifOffsetHz) && !gate
      ensures rc == Ok ==> RatioWord() == ratio
      ensures rc == Ok && ifOffsetHz > 0 ==> demod[NCO_HI..NCO_HI + 3] == NcoBytes(NcoWord(ifOffsetHz))
      ensures forall r | 0 <= r < 256 && r != 1 && !(NCO_HI <= r < NCO_HI + 3) && !(0x9F <= r < 0xA3) :: demod[r] == old(demod[r])
    {
      rc := WriteRatio(ratio);
      if rc != Ok {
        return;
      }
      rc := DdcReset();
      if rc != Ok {
        return;
      }
      if ifOffsetHz > 0 {
        rc := SetIfFreq(ifOffsetHz);
      }
    }
  }

  lemma RateLog(log: seq<DemodOp>, filter: seq<DemodOp>, ratio: nat, again: seq<DemodOp>)
    requires ratio < 0x1000_0000
    ensures log + filter + (RatioWrites(ratio) + RESET_WRITES + again) ==
            log + filter + [DemodOp(0x9F, ratio / 0x1_0000, 2), DemodOp(0xA1, ratio % 0x1_0000, 2)]
            + [DemodOp(0x01, 0x14, 1), DemodOp(0x01, 0x10, 1)] + again
  {
    assert ratio / 0x1_0000 % 0x1_0000 == ratio / 0x1_0000;
  }

  lemma RatioBytes(ratio: nat)
    requires ratio < 0x1000_0000
    ensures var hi, lo := ratio / 0x1_0000 % 0x1_0000, ratio % 0x1_0000;
            0x100_0000 * U8(hi / 256) + 0x1_0000 * U8(hi) + 0x100 * U8(lo / 256) + U8(lo) == ratio
  {
    var hi, lo := ratio / 0x1_0000, ratio % 0x1_0000;
    assert hi < 0x1000 && hi % 0x1_0000 == hi;
    WordBytes(hi);
    WordBytes(lo);
  }

  lemma WordBytes(w: nat)
    requires w < 0x1_0000
    ensures 0x100 * U8(w / 256) + U8(w) == w
  {
    assert w / 256 < 256;
  }

  /** The method part of synthesis: enumerate, avoid spurs, rank, pack. */
  method Solve(target: nat, ref: nat) returns (rc: Status, enc: PllEncoding)
    requires target < 0x1_0000_0000 && Computable(target, ref)
    ensures rc == if Tunable(target) then Ok else PllError
    ensures EncodingOk(enc) && (rc == Ok ==> enc == PllWords(target, ref))
  {
    var candidates := new PllSolution[MAX_CANDIDATES](_ => PllSolution(0, 0, 0, 0, 0, false, false, 0));
    enc := PllEncoding(0, 0, 0, 0, 0);
    var count := EnumerateCandidates(target, ref, candidates);
    if count == 0 {
      return PllError, enc;
    }
    OrderForHits(target);
    NormalizeSpurAvoidance(candidates, count, ref);
    var best := RankAndSelect(candidates, count);
    if best.None? {
      return PllError, enc;
    }
    enc := PackSolution(candidates[best.value], ref);
    rc := Ok;
  }

  /** The second stage of a retune: nothing when there is no candidate. */
  function PllStage(lo: nat, ref: nat, escalated: bool): seq<Intent> {
    if Tunable(lo / 1000) then SynthWrites(PllWords(lo / 1000, ref)) + LockWrites(escalated) else []
  }

  predicate LowTargets(ws: seq<Intent>) {
    forall i | 0 <= i < |ws| :: ws[i].target < 32
  }

  lemma LowLists(enc: PathEncoding, escalated: bool)
    ensures LowTargets(PathWrites(enc)) && LowTargets(LockWrites(escalated)) && LowTargets(AnalogWrites())
    ensures |AnalogWrites()| <= SEQ_CAPACITY
  {
  }

  lemma SynthIsLow(enc: PllEncoding)
    requires EncodingOk(enc)
    ensures LowTargets(SynthWrites(enc)) && |SynthWrites(enc)| <= SEQ_CAPACITY
  {
  }

  lemma PrefixGrows<T>(t: seq<T>, a: seq<T>, b: seq<T>)
    requires t <= a
    ensures t <= a + b
  {
  }

  lemma PrefixAfter<T>(a: seq<T>, t: seq<T>, b: seq<T>)
    requires t <= b
    ensures a + t <= a + b
  {
  }

  /** The stages of a retune, end to end. */
  lemma StagesOfRetune(lo: nat, ref: nat, escalated: bool)
    ensures var front := PathWrites(PathFor(lo)) + PllStage(lo, ref, escalated);
            && front <= FreqWrites(lo, ref, escalated)
            && (Tunable(lo / 1000) ==> FreqWrites(lo, ref, escalated) == front + AnalogWrites())
  {
    var p, q := PathWrites(PathFor(lo)), PllStage(lo, ref, escalated);
    if Tunable(lo / 1000) {
      assert FreqWrites(lo, ref, escalated) == p + q + AnalogWrites();
    } else {
      assert p + q == p;
    }
  }

  function Fulls(pairs: seq<(Address, byte)>): seq<Intent> {
    seq(|pairs|, i requires 0 <= i < |pairs| => Full(pairs[i].0, pairs[i].1))
  }

  lemma FullsSnoc(pairs: seq<(Address, byte)>, i: nat)
    requires i < |pairs|
    ensures Fulls(pairs[..i + 1])[..i] == Fulls(pairs[..i]) && Fulls(pairs[..i + 1])[i] == Full(pairs[i].0, pairs[i].1)
    ensures |Fulls(pairs[..i + 1])| == i + 1
  {
  }
}
