/**
 The FC0012 tuner: output divider selection, the two independently rounded halves of its PLL
 ratio, and a tuning session down to the chip's registers. The reference is 14.4 MHz, half the
 crystal.
 */
module Fc0012 {
  import opened Words
  import opened RegisterFile

  const HALF_XTAL: nat := 14_400_000
  const VCO_CEIL: nat := 3_060_000_000
  const VCO_BIAS_THRESHOLD: nat := 0xB663_0B80
  const MULTIPLIERS: seq<nat> := [96, 64, 48, 32, 24, 16, 12, 8, 6, 4]

  // ---- Output divider ----

  datatype Selection = Selection(multiplier: nat, index: nat, vcoHz: nat, elevatedBias: bool)

  /** The first index from i on whose VCO lies below the ceiling, or the last one. */
  function IndexFrom(freqHz: nat, i: nat): (r: nat)
    requires i < 10
    ensures i <= r < 10
    decreases 10 - i
  {
    if i == 9 || freqHz * MULTIPLIERS[i] < VCO_CEIL then i else IndexFrom(freqHz, i + 1)
  }

  lemma {:induction false} IndexFromIsFirst(freqHz: nat, i: nat)
    requires i < 10
    ensures var r := IndexFrom(freqHz, i);
            && (r == 9 || freqHz * MULTIPLIERS[r] < VCO_CEIL)
            && forall j | i <= j < r :: freqHz * MULTIPLIERS[j] >= VCO_CEIL
    decreases 10 - i
  {
    if i != 9 && freqHz * MULTIPLIERS[i] >= VCO_CEIL {
      IndexFromIsFirst(freqHz, i + 1);
    }
  }

  function Select(freqHz: nat): Selection {
    var i := IndexFrom(freqHz, 0);
    var vco := freqHz * MULTIPLIERS[i];
    Selection(MULTIPLIERS[i], i, vco, vco >= VCO_BIAS_THRESHOLD)
  }

  method DeriveMultiplier(freqHz: nat) returns (sel: Selection)
    ensures sel == Select(freqHz)
    ensures sel.vcoHz == freqHz * sel.multiplier && (sel.elevatedBias <==> freqHz * sel.multiplier >= 3_059_944_320)
  {
    for i := 0 to |MULTIPLIERS|
      invariant if i < 10 then IndexFrom(freqHz, 0) == IndexFrom(freqHz, i)
                else IndexFrom(freqHz, 0) == 9 && freqHz * MULTIPLIERS[9] >= VCO_CEIL
    {
      var vco := freqHz * MULTIPLIERS[i];
      if vco < VCO_CEIL {
        return Selection(MULTIPLIERS[i], i, vco, vco >= VCO_BIAS_THRESHOLD);
      }
    }
    sel := Selection(MULTIPLIERS[9], 9, freqHz * MULTIPLIERS[9], true);
  }

  /** The largest multiplier with a VCO below the ceiling, and 4 when there is none. */
  lemma SelectIsLargest(freqHz: nat)
    ensures var s := Select(freqHz);
            && s.multiplier in MULTIPLIERS && s.vcoHz == freqHz * s.multiplier
            && (forall m | m in MULTIPLIERS && freqHz * m < VCO_CEIL :: m <= s.multiplier)
            && (if freqHz * 4 < VCO_CEIL then s.vcoHz < VCO_CEIL else s.multiplier == 4)
  {
    var i := IndexFrom(freqHz, 0);
    IndexFromIsFirst(freqHz, 0);
    forall m | m in MULTIPLIERS && freqHz * m < VCO_CEIL
      ensures m <= MULTIPLIERS[i]
    {
      var k :| 0 <= k < 10 && MULTIPLIERS[k] == m;
      assert k >= i;
    }
    if i == 0 {} else if i == 1 {} else if i == 2 {} else if i == 3 {} else if i == 4 {}
    else if i == 5 {} else if i == 6 {} else if i == 7 {} else if i == 8 {} else {}
  }

  /** Elevated bias from 3,059,944,320 Hz of VCO on, and so always when no multiplier keeps it below the ceiling. */
  lemma SelectedBias(freqHz: nat)
    ensures var s := Select(freqHz);
            && (s.elevatedBias <==> freqHz * s.multiplier >= 3_059_944_320)
            && (freqHz >= 765_000_000 ==> s.elevatedBias)
  {
    IndexFromIsFirst(freqHz, 0);
    SelectIsLargest(freqHz);
  }

  // ---- Ratio ----

  /** Nearest integer to vco / HALF_XTAL, computed in 16 bits. */
  function RawRatio(vcoHz: nat): (raw: nat) {
    var total := U16(vcoHz / HALF_XTAL);
    if vcoHz - total * HALF_XTAL >= HALF_XTAL / 2 then U16(total + 1) else total
  }

  /** The signed fraction of HALF_XTAL, in 1/32768, worked out from the VCO alone. */
  function FracWord(vcoHz: nat): (w: nat)
    ensures w < 0x1_0000
  {
    var khz := U16(vcoHz % HALF_XTAL / 1000);
    var frac := U16(khz * 0x8000 / 14400);
    if frac >= 0x4000 then U16(frac + 0x8000) else frac
  }

  datatype Ratio = Ratio(n: nat, a: nat, feasible: bool)

  /** Split into 8n + a in 8-bit arithmetic, with a at least 2 and n at most 31. */
  function Normalize(raw: nat): Ratio {
    Adjust(U8(raw / 8), U8(raw - 8 * U8(raw / 8)))
  }

  function Adjust(n0: nat, a0: nat): Ratio {
    var n, a := if a0 < 2 then U8(n0 - 1) else n0, if a0 < 2 then U8(a0 + 8) else a0;
    var n', a' := if n > 31 then 31 else n, if n > 31 then U8(a + 8 * (n - 31)) else a;
    Ratio(n', a', a' <= 15 && n' >= 11)
  }

  /** The chip's VCO, in 1/32768 Hz. */
  function Synthesised(total: nat, frac: nat): int
    requires frac < 0x1_0000
  {
    (0x8000 * total + S16(frac)) * HALF_XTAL
  }

  /** The fraction before it is read as signed. */
  function Fraction(rest: nat): nat {
    rest / 1000 * 0x8000 / 14400
  }

  lemma FracInWords(vcoHz: nat)
    ensures var rest := vcoHz % HALF_XTAL;
            S16(FracWord(vcoHz)) + (if rest >= HALF_XTAL / 2 then 0x8000 else 0) == Fraction(rest)
  {
    var khz := vcoHz % HALF_XTAL / 1000;
    var frac := khz * 0x8000 / 14400;
    assert khz < 14400 && frac < 0x8000;
    assert frac >= 0x4000 <==> khz >= 7200;
  }

  lemma FractionBounds(rest: nat)
    ensures 0 <= 0x8000 * rest - Fraction(rest) * HALF_XTAL < 0x8000 * 1440
  {
    var khz, frac := rest / 1000, Fraction(rest);
    assert 1000 * khz <= rest <= 1000 * khz + 999;
    assert 14400 * frac <= 0x8000 * khz <= 14400 * frac + 14399;
  }

  lemma FracWordValue(vcoHz: nat)
    ensures var rest := vcoHz % HALF_XTAL;
            var frac := S16(FracWord(vcoHz)) + if rest >= HALF_XTAL / 2 then 0x8000 else 0;
            0 <= 0x8000 * rest - frac * HALF_XTAL < 0x8000 * 1440
  {
    FracInWords(vcoHz);
    FractionBounds(vcoHz % HALF_XTAL);
  }

  /**
   Two roundings that must agree: the integer part is rounded up exactly when the fraction is
   taken to be negative, so together they are below the VCO by less than 1440 Hz.
   */
  lemma RatioAndFractionAgree(vcoHz: nat)
    requires vcoHz < 0xFFFF * HALF_XTAL
    ensures 0 <= 0x8000 * vcoHz - Synthesised(RawRatio(vcoHz), FracWord(vcoHz)) < 0x8000 * 1440
  {
    FracWordValue(vcoHz);
    var q, rest := vcoHz / HALF_XTAL, vcoHz % HALF_XTAL;
    assert vcoHz == q * HALF_XTAL + rest && q < 0xFFFF;
    assert RawRatio(vcoHz) == if rest >= HALF_XTAL / 2 then q + 1 else q;
  }

  /** raw as 2048 k + 8 p + e: its high bits, the byte that n starts from, and its last three bits. */
  lemma RawParts(raw: nat, k: nat, p: nat, e: nat)
    requires raw == 2048 * k + 8 * p + e && p < 256 && e < 8
    ensures raw % 2048 == 8 * p + e && raw / 8 == 256 * k + p
  {
  }

  lemma NormalizeHigh(raw: nat)
    ensures U8(raw / 8) == raw % 2048 / 8
  {
    RawParts(raw, raw / 2048, raw / 8 % 256, raw % 8);
  }

  lemma U8Is(x: nat, k: nat, e: nat)
    requires x == 256 * k + e && e < 256
    ensures U8(x) == e
  {
  }

  lemma NormalizeLow(raw: nat)
    ensures U8(raw - 8 * U8(raw / 8)) == raw % 2048 % 8
  {
    NormalizeHigh(raw);
    var k, r := raw / 2048, raw % 2048;
    U8Is(raw - 8 * (r / 8), 8 * k, r % 8);
  }

  /** The adjustment in closed form: 8n + a with a in 2 to 9, and past n = 31 all that is left of a. */
  lemma AdjustIs(p: nat, e: nat, r: nat)
    requires p < 256 && e < 8 && r == 8 * p + e
    ensures Adjust(p, e).n == if 2 <= r < 258 then (r - 2) / 8 else 31
    ensures Adjust(p, e).a == if 2 <= r < 258 then r - 8 * ((r - 2) / 8) else (r - 248) % 256
  {
    if r < 2 {
      assert U8(p - 1) == 255 && U8(e + 8) == e + 8;
      U8Is(e + 8 + 8 * 224, 7, e + 8);
    } else {
      var q := (r - 2) / 8;
      assert q == if e < 2 then p - 1 else p;
      assert U8(q) == q && U8(e + 8) == e + 8;
    }
  }

  /** So for the split, modulo 2048. */
  lemma NormalizeIs(raw: nat)
    ensures var r, s := raw % 2048, Normalize(raw);
            && s.n == (if 2 <= r < 258 then (r - 2) / 8 else 31)
            && s.a == (if 2 <= r < 258 then r - 8 * ((r - 2) / 8) else (r - 248) % 256)
  {
    NormalizeHigh(raw);
    NormalizeLow(raw);
    AdjustIs(raw % 2048 / 8, raw % 2048 % 8, raw % 2048);
  }

  /** Out of range, but brought into it by 8-bit truncation. */
  predicate SlipsThrough(r: nat) {
    (r < 2 || r >= 504) && (r - 248) % 256 <= 15
  }

  /** Which of all 16-bit ratios pass the feasibility test. */
  lemma FeasibleIff(raw: nat)
    requires raw < 0x1_0000
    ensures Normalize(raw).feasible <==> 90 <= raw % 2048 <= 263 || SlipsThrough(raw % 2048)
  {
    NormalizeIs(raw);
    FeasibleSplit(raw % 2048, Normalize(raw).n, Normalize(raw).a);
  }

  lemma FeasibleSplit(r: nat, n: nat, a: nat)
    requires n == (if 2 <= r < 258 then (r - 2) / 8 else 31)
    requires a == (if 2 <= r < 258 then r - 8 * ((r - 2) / 8) else (r - 248) % 256)
    ensures a <= 15 && n >= 11 <==> 90 <= r <= 263 || SlipsThrough(r)
  {
    if 2 <= r < 258 {
      SplitMiddle(r);
    } else if 258 <= r < 504 {
      assert a == r - 248;
    }
  }

  /** The middle branch of the split: a lies in 2 to 9, and n reaches 11 at 90. */
  lemma SplitMiddle(r: nat)
    requires r >= 2
    ensures 2 <= r - 8 * ((r - 2) / 8) <= 9
    ensures (r - 2) / 8 >= 11 <==> r >= 90
  {
  }

  /** The split loses nothing exactly on 90 to 263; there n fits 5 bits and a lies in 2 to 15. */
  lemma SplitIsFaithfulIff(raw: nat)
    requires raw < 0x1_0000
    ensures var s := Normalize(raw);
            && (s.feasible && 8 * s.n + s.a == raw <==> 90 <= raw <= 263)
            && (90 <= raw <= 263 ==> s.n <= 31 && 2 <= s.a <= 15)
  {
    NormalizeIs(raw);
    SplitSums(raw, Normalize(raw).n, Normalize(raw).a);
  }

  lemma SplitSums(raw: nat, n: nat, a: nat)
    requires var r := raw % 2048;
             && n == (if 2 <= r < 258 then (r - 2) / 8 else 31)
             && a == (if 2 <= r < 258 then r - 8 * ((r - 2) / 8) else (r - 248) % 256)
    ensures a <= 15 && n >= 11 && 8 * n + a == raw <==> 90 <= raw <= 263
    ensures 90 <= raw <= 263 ==> n <= 31 && 2 <= a <= 15
  {
    if raw % 2048 >= 2 {
      SplitMiddle(raw % 2048);
    }
    if raw <= 263 {
      assert raw % 2048 == raw;
    } else {
      assert n <= 31;
    }
  }

  // ---- From frequency to ratio ----

  function RatioOf(freqHz: nat): nat {
    RawRatio(Select(freqHz).vcoHz)
  }

  /** Frequencies whose ratio the chip can hold. */
  predicate Reachable(freqHz: nat) {
    13_425_000 <= freqHz < 948_600_000
  }

  /** Frequencies accepted although the chip cannot hold their ratio. */
  predicate Misread(freqHz: nat) {
    || freqHz < 225_000
    || 1_812_600_000 <= freqHz < 1_870_200_000
    || 2_734_200_000 <= freqHz < 2_791_800_000
    || 3_655_800_000 <= freqHz < 3_713_400_000
  }

  /** The VCO by multiplier: what the selection loop means for the frequency. */
  lemma SelectedVco(freqHz: nat)
    ensures var s := Select(freqHz);
            && s.vcoHz == freqHz * s.multiplier
            && (freqHz < 31_875_000 ==> s.multiplier == 96)
            && (31_875_000 <= freqHz < 765_000_000 ==> 2_040_000_000 <= s.vcoHz < VCO_CEIL)
            && (765_000_000 <= freqHz ==> s.multiplier == 4)
  {
    var i := IndexFrom(freqHz, 0);
    IndexFromIsFirst(freqHz, 0);
    if i == 0 {} else if i == 1 {} else if i == 2 {} else if i == 3 {} else if i == 4 {}
    else if i == 5 {} else if i == 6 {} else if i == 7 {} else if i == 8 {} else {}
  }

  /** Rounding to the nearest multiple, without the 16-bit wrap no 32-bit frequency can reach. */
  lemma RawRatioBounds(vcoHz: nat, k: nat)
    requires vcoHz < 0xFFFF * HALF_XTAL && 0 < k
    ensures RawRatio(vcoHz) >= k <==> 2 * vcoHz >= (2 * k - 1) * HALF_XTAL
  {
    var q, rest := vcoHz / HALF_XTAL, vcoHz % HALF_XTAL;
    assert vcoHz == q * HALF_XTAL + rest && q < 0xFFFF;
    assert RawRatio(vcoHz) == if rest >= HALF_XTAL / 2 then q + 1 else q;
  }

  lemma ReachableIff(freqHz: nat)
    requires freqHz < 0x1_0000_0000
    ensures 90 <= RatioOf(freqHz) <= 263 <==> Reachable(freqHz)
    ensures 22_000_000 <= freqHz < 948_600_000 ==> 142 <= RatioOf(freqHz) <= 263
    ensures RatioOf(freqHz) < 2048
  {
    SelectedVco(freqHz);
    var vco := Select(freqHz).vcoHz;
    RawRatioBounds(vco, 90);
    RawRatioBounds(vco, 142);
    RawRatioBounds(vco, 264);
    RawRatioBounds(vco, 2048);
  }

  lemma MisreadIff(freqHz: nat)
    requires freqHz < 0x1_0000_0000
    ensures var r := RatioOf(freqHz);
            r < 2 || 504 <= r < 520 || 760 <= r < 776 || 1016 <= r < 1032 <==> Misread(freqHz)
    ensures RatioOf(freqHz) < 1272
  {
    SelectedVco(freqHz);
    var vco := Select(freqHz).vcoHz;
    RawRatioBounds(vco, 2);
    RawRatioBounds(vco, 504);
    RawRatioBounds(vco, 520);
    RawRatioBounds(vco, 760);
    RawRatioBounds(vco, 776);
    RawRatioBounds(vco, 1016);
    RawRatioBounds(vco, 1032);
    RawRatioBounds(vco, 1272);
  }

  lemma TruncationBands(r: nat)
    requires r < 1272
    ensures SlipsThrough(r) <==> r < 2 || 504 <= r < 520 || 760 <= r < 776 || 1016 <= r < 1032
  {
    if r < 248 {
      assert (r - 248) % 256 == r + 8;
    } else if r < 504 {
      assert (r - 248) % 256 == r - 248;
    } else if r < 760 {
      assert (r - 248) % 256 == r - 504;
    } else if r < 1016 {
      assert (r - 248) % 256 == r - 760;
    } else {
      assert (r - 248) % 256 == r - 1016;
    }
  }

  lemma AcceptedRatioIff(raw: nat)
    requires raw < 1272
    ensures var s := Normalize(raw);
            && (s.feasible <==> 90 <= raw <= 263 || raw < 2 || 504 <= raw < 520 || 760 <= raw < 776 || 1016 <= raw < 1032)
            && (s.feasible && 8 * s.n + s.a == raw <==> 90 <= raw <= 263)
  {
    assert raw % 2048 == raw;
    FeasibleIff(raw);
    TruncationBands(raw);
    SplitIsFaithfulIff(raw);
  }

  /** A frequency is accepted if its ratio fits the chip, and on four bands where it does not. */
  lemma AcceptedIff(freqHz: nat)
    requires freqHz < 0x1_0000_0000
    ensures var s := Normalize(RatioOf(freqHz));
            && (s.feasible <==> Reachable(freqHz) || Misread(freqHz))
            && (s.feasible && 8 * s.n + s.a == RatioOf(freqHz) <==> Reachable(freqHz))
  {
    ReachableIff(freqHz);
    MisreadIff(freqHz);
    AcceptedRatioIff(RatioOf(freqHz));
  }

  // ---- Registers ----

  const RF_AMP: Address := 0x01
  const RF_MIX: Address := 0x02
  const FRAC_HI: Address := 0x03
  const FRAC_LO: Address := 0x04
  const OUT_DIV: Address := 0x05
  const VCO_BW: Address := 0x06
  const VCO_CAL: Address := 0x0E

  const DIVIDER_BASE: seq<byte> := [0x82, 0x82, 0x42, 0x42, 0x22, 0x22, 0x12, 0x12, 0x0A, 0x0A]

  function DividerEncoding(index: nat): byte {
    if index < 10 then DIVIDER_BASE[index] else 0x0A
  }

  function BandwidthByte(sel: Selection): byte {
    var base: byte := if sel.index % 2 == 1 then 0x02 else 0x00;
    ((base | (if sel.elevatedBias then 0x08 else 0x00) | 0x20) & 0x3F) | 0x80
  }

  /** The six writes of a session, in order. */
  function TuningWrites(freqHz: nat): seq<Intent> {
    Block(SessionBytes(freqHz))
  }

  function Block(v: seq<byte>): seq<Intent>
    requires |v| == 6
  {
    [Full(RF_AMP, v[0]), Full(RF_MIX, v[1]), Full(FRAC_HI, v[2]), Full(FRAC_LO, v[3]), Full(OUT_DIV, v[4]), Full(VCO_BW, v[5])]
  }

  /** The verdict on a measured code: too high under elevated bias, too low without it. */
  predicate NeedsCorrection(sel: Selection, code: byte) {
    if sel.elevatedBias then code > 0x3C else code < 0x02
  }

  /** Bias correction: one bit of the bandwidth byte, cleared if it was set and set if it was clear. */
  function CorrectedBias(sel: Selection): byte {
    if sel.elevatedBias then BandwidthByte(sel) & !0x08 else BandwidthByte(sel) | 0x08
  }

  /** Current boost and bandwidth code always; bit 1 for the second multiplier of a pair, bit 3 for elevated bias. */
  lemma BandwidthIs(sel: Selection)
    ensures BandwidthByte(sel) == if sel.index % 2 == 1 then if sel.elevatedBias then 0xAA else 0xA2
                                  else if sel.elevatedBias then 0xA8 else 0xA0
    ensures CorrectedBias(sel) == if sel.index % 2 == 1 then if sel.elevatedBias then 0xA2 else 0xAA
                                  else if sel.elevatedBias then 0xA0 else 0xA8
  {
  }

  /** All a calibration may write. */
  predicate CalibrationWrites(ws: seq<Intent>, sel: Selection) {
    forall i | 0 <= i < |ws| :: CalibrationWrite(ws[i], sel)
  }

  predicate CalibrationWrite(w: Intent, sel: Selection) {
    w == Full(VCO_CAL, 0x80) || w == Full(VCO_CAL, 0x00) || w == Full(VCO_BW, CorrectedBias(sel))
  }

  function DecodeTotal(f: File): nat {
    8 * (f[RF_MIX] as nat) + f[RF_AMP] as nat
  }

  function DecodeFrac(f: File): (w: nat)
    ensures w < 0x1_0000
  {
    0x100 * (f[FRAC_HI] as nat) + f[FRAC_LO] as nat
  }

  /** The output divider in the chip: a pair of multipliers by register, one of the two by a bandwidth bit. */
  function DecodeMultiplier(f: File): nat {
    var low := f[VCO_BW] & 0x02 == 0;
    var d := f[OUT_DIV];
    if d == 0x87 then if low then 96 else 64
    else if d == 0x47 then if low then 48 else 32
    else if d == 0x27 then if low then 24 else 16
    else if d == 0x17 then if low then 12 else 8
    else if d == 0x0F then if low then 6 else 4
    else 0
  }

  /** Both bytes decode back to the multiplier, bias corrected or not. */
  lemma DividerRoundTrip(f: File, sel: Selection)
    requires sel.index < 10 && sel.multiplier == MULTIPLIERS[sel.index]
    requires f[OUT_DIV] == DividerEncoding(sel.index) | 0x07
    requires f[VCO_BW] == BandwidthByte(sel) || f[VCO_BW] == CorrectedBias(sel)
    ensures DecodeMultiplier(f) == sel.multiplier
  {
    var i := sel.index;
    if i == 0 {} else if i == 1 {} else if i == 2 {} else if i == 3 {} else if i == 4 {}
    else if i == 5 {} else if i == 6 {} else if i == 7 {} else if i == 8 {} else {}
  }

  /** The correction got through. */
  predicate Corrects(ws: seq<Intent>) {
    exists i | 0 <= i < |ws| :: ws[i].target == VCO_BW
  }

  lemma CorrectsSnoc(ws: seq<Intent>, w: Intent)
    ensures Corrects(ws + [w]) <==> Corrects(ws) || w.target == VCO_BW
  {
    if Corrects(ws) {
      var i :| 0 <= i < |ws| && ws[i].target == VCO_BW;
      assert (ws + [w])[i].target == VCO_BW;
    }
    if w.target == VCO_BW {
      assert (ws + [w])[|ws|].target == VCO_BW;
    }
  }

  lemma {:induction false} CalibrationTouchesOneByte(f: File, ws: seq<Intent>, sel: Selection)
    requires CalibrationWrites(ws, sel)
    ensures var g := PutAll(f, ws);
            && (forall r: Address | r != VCO_CAL && r != VCO_BW :: g[r] == f[r])
            && g[VCO_BW] == if Corrects(ws) then CorrectedBias(sel) else f[VCO_BW]
  {
    if ws != [] {
      var init, w := ws[..|ws| - 1], ws[|ws| - 1];
      assert CalibrationWrite(w, sel) && ws == init + [w];
      CalibrationTouchesOneByte(f, init, sel);
      CorrectsSnoc(init, w);
    }
  }

  /** The six registers after all six writes; nothing else changes. */
  lemma BlockWrites(f: File, v: seq<byte>)
    requires |v| == 6
    ensures PutAll(f, Block(v)) == f[RF_AMP := v[0]][RF_MIX := v[1]][FRAC_HI := v[2]][FRAC_LO := v[3]][OUT_DIV := v[4]][VCO_BW := v[5]]
  {
    var ws := Block(v);
    PutAllStep(f, ws, 0);
    PutAllStep(f, ws, 1);
    PutAllStep(f, ws, 2);
    PutAllStep(f, ws, 3);
    PutAllStep(f, ws, 4);
    PutAllStep(f, ws, 5);
    assert ws[..6] == ws;
  }

  lemma PutAllStep(f: File, ws: seq<Intent>, n: nat)
    requires n < |ws| && ws[n].action.AssignFull?
    ensures PutAll(f, ws[..n + 1]) == PutAll(f, ws[..n])[ws[n].target := ws[n].value]
  {
    assert ws[..n + 1][..n] == ws[..n];
  }

  /** The bytes of a session, in register order. */
  function SessionBytes(freqHz: nat): seq<byte> {
    var sel := Select(freqHz);
    var r, w := Normalize(RawRatio(sel.vcoHz)), FracWord(sel.vcoHz);
    [r.a as byte, r.n as byte, (w / 0x100) as byte, (w % 0x100) as byte,
     DividerEncoding(sel.index) | 0x07, BandwidthByte(sel)]
  }

  /** The registers hold those bytes, up to the bias correction. */
  predicate HoldsSession(g: File, v: seq<byte>, sel: Selection)
    requires |v| == 6
  {
    && g[RF_AMP] == v[0] && g[RF_MIX] == v[1] && g[FRAC_HI] == v[2] && g[FRAC_LO] == v[3] && g[OUT_DIV] == v[4]
    && (g[VCO_BW] == v[5] || g[VCO_BW] == CorrectedBias(sel))
  }

  /** What a session's six writes leave, whatever the calibration does after them. */
  lemma SessionRegisters(f: File, v: seq<byte>, cal: seq<Intent>, sel: Selection)
    requires |v| == 6 && CalibrationWrites(cal, sel)
    ensures var g := PutAll(PutAll(f, Block(v)), cal);
            && HoldsSession(g, v, sel)
            && forall r: Address | !(RF_AMP <= r <= VCO_BW) && r != VCO_CAL :: g[r] == f[r]
  {
    BlockWrites(f, v);
    CalibrationTouchesOneByte(PutAll(f, Block(v)), cal, sel);
  }

  /**
   The bias bit a session leaves: elevated from 3,059,944,320 Hz of VCO on, or the other way
   round exactly if the calibration's correction got through.
   */
  lemma BiasAfterSession(f: File, freqHz: nat, cal: seq<Intent>)
    requires CalibrationWrites(cal, Select(freqHz))
    ensures var g := PutAll(PutAll(f, TuningWrites(freqHz)), cal);
            var elevated := freqHz * Select(freqHz).multiplier >= 3_059_944_320;
            g[VCO_BW] & 0x08 != 0 <==> if Corrects(cal) then !elevated else elevated
  {
    var sel, v := Select(freqHz), SessionBytes(freqHz);
    BlockWrites(f, v);
    CalibrationTouchesOneByte(PutAll(f, Block(v)), cal, sel);
    BandwidthIs(sel);
    SelectedBias(freqHz);
  }

  /**
   End to end. For a reachable frequency and whatever the calibration finds and manages to
   write, the registers decode to the chosen multiplier and to a VCO at most 1440 Hz below
   the frequency times that multiplier; everything but the six registers and the
   calibration register is as before.
   */
  lemma CommittedSessionIsTuned(f: File, freqHz: nat, cal: seq<Intent>)
    requires Reachable(freqHz) && CalibrationWrites(cal, Select(freqHz))
    ensures var g := PutAll(PutAll(f, TuningWrites(freqHz)), cal);
            && DecodeMultiplier(g) == Select(freqHz).multiplier
            && 0 <= 0x8000 * (freqHz * DecodeMultiplier(g)) - Synthesised(DecodeTotal(g), DecodeFrac(g)) < 0x8000 * 1440
            && forall r: Address | !(RF_AMP <= r <= VCO_BW) && r != VCO_CAL :: g[r] == f[r]
  {
    SessionRegisters(f, SessionBytes(freqHz), cal, Select(freqHz));
    DecodedSession(PutAll(PutAll(f, TuningWrites(freqHz)), cal), freqHz);
    SynthesisOf(freqHz);
  }

  lemma DecodedSession(g: File, freqHz: nat)
    requires HoldsSession(g, SessionBytes(freqHz), Select(freqHz))
    ensures var sel := Select(freqHz); var r := Normalize(RawRatio(sel.vcoHz));
            && DecodeMultiplier(g) == sel.multiplier
            && DecodeTotal(g) == 8 * r.n + r.a && DecodeFrac(g) == FracWord(sel.vcoHz)
  {
    DividerRoundTrip(g, Select(freqHz));
    DecodedRatio(g, Select(freqHz).vcoHz);
  }

  lemma SynthesisOf(freqHz: nat)
    requires Reachable(freqHz)
    ensures var sel := Select(freqHz); var r := Normalize(RawRatio(sel.vcoHz));
            && sel.vcoHz == freqHz * sel.multiplier
            && 0 <= 0x8000 * sel.vcoHz - Synthesised(8 * r.n + r.a, FracWord(sel.vcoHz)) < 0x8000 * 1440
  {
    AcceptedIff(freqHz);
    SelectedVco(freqHz);
    RatioAndFractionAgree(Select(freqHz).vcoHz);
  }

  lemma DecodedRatio(g: File, vcoHz: nat)
    requires var r, w := Normalize(RawRatio(vcoHz)), FracWord(vcoHz);
             g[RF_AMP] == r.a as byte && g[RF_MIX] == r.n as byte
             && g[FRAC_HI] == (w / 0x100) as byte && g[FRAC_LO] == (w % 0x100) as byte
    ensures var r := Normalize(RawRatio(vcoHz));
            DecodeTotal(g) == 8 * r.n + r.a && DecodeFrac(g) == FracWord(vcoHz)
  {
    var r, w := Normalize(RawRatio(vcoHz)), FracWord(vcoHz);
    ByteBack(r.a);
    ByteBack(r.n);
    ByteBack(w / 0x100);
    ByteBack(w % 0x100);
  }

  // ---- The chip ----

  const LNA_OVERRIDE: Address := 0x0D
  const LNA_GAIN: Address := 0x13

  /** The four capability blocks of a cold start, in order. */
  const INIT_WRITES: seq<Intent> := [
    Full(RF_AMP, 0x05), Full(RF_MIX, 0x10), Full(FRAC_HI, 0x00), Full(FRAC_LO, 0x00),
    Full(OUT_DIV, 0x0F), Full(VCO_BW, 0x00), Full(0x07, 0x20), Full(0x0A, 0xB8), Full(VCO_CAL, 0x00),
    Full(0x08, 0xFF), Full(0x09, 0x6E), Full(0x0C, 0xFE), Full(LNA_OVERRIDE, 0x02),
    Full(0x0B, 0x82), Full(0x0F, 0x00), Full(0x10, 0x00), Full(0x11, 0x00), Full(0x12, 0x1F), Full(LNA_GAIN, 0x00),
    Full(0x14, 0x00), Full(0x15, 0x04)]

  /** The first gain write after power-on is lost, so one is made here; its result is not looked at. */
  const PRIME: seq<Intent> := [Full(LNA_OVERRIDE, 0x0A), Full(LNA_GAIN, 0x02)]

  /** Registers 0x01 to 0x15 after a cold start. */
  const STARTED: seq<byte> := [
    0x05, 0x10, 0x00, 0x00, 0x0F, 0x00, 0x20, 0xFF, 0x6E, 0xB8, 0x82, 0xFE, 0x02, 0x00, 0x00, 0x00, 0x00, 0x1F, 0x00, 0x00, 0x04]

  /** The place among the blocks of a register's write. */
  function PlaceOf(r: Address): nat
    requires 1 <= r <= 0x15
  {
    [0, 1, 2, 3, 4, 5, 6, 9, 10, 7, 13, 11, 12, 8, 14, 15, 16, 17, 18, 19, 20][r - 1]
  }

  /** A write of the whole register r with its value from the table. */
  predicate Starts(w: Intent, r: nat) {
    1 <= r <= 0x15 && w == Full(r, STARTED[r - 1])
  }

  lemma InitEntry(i: nat)
    requires i < 21
    ensures var w := INIT_WRITES[i]; Starts(w, w.target) && PlaceOf(w.target) == i
  {
    if i == 0 {} else if i == 1 {} else if i == 2 {} else if i == 3 {} else if i == 4 {} else if i == 5 {} else if i == 6 {}
    else if i == 7 {} else if i == 8 {} else if i == 9 {} else if i == 10 {} else if i == 11 {} else if i == 12 {} else if i == 13 {}
    else if i == 14 {} else if i == 15 {} else if i == 16 {} else if i == 17 {} else if i == 18 {} else if i == 19 {} else {}
  }

  lemma InitPlace(r: Address)
    requires 1 <= r <= 0x15
    ensures PlaceOf(r) < 21 && INIT_WRITES[PlaceOf(r)].target == r
  {
    if r == 1 {} else if r == 2 {} else if r == 3 {} else if r == 4 {} else if r == 5 {} else if r == 6 {} else if r == 7 {}
    else if r == 8 {} else if r == 9 {} else if r == 10 {} else if r == 11 {} else if r == 12 {} else if r == 13 {} else if r == 14 {}
    else if r == 15 {} else if r == 16 {} else if r == 17 {} else if r == 18 {} else if r == 19 {} else if r == 20 {} else {}
  }

  lemma InitStep(r: Address, n: nat)
    requires n < 21
    ensures INIT_WRITES[n].target == r <==> 1 <= r <= 0x15 && PlaceOf(r) == n
    ensures INIT_WRITES[n].target == r ==> INIT_WRITES[n] == Full(r, STARTED[r - 1])
  {
    InitEntry(n);
    if 1 <= r <= 0x15 {
      InitPlace(r);
    }
  }

  lemma FullAt(f: File, w: Intent, r: Address, value: byte)
    requires w.target == r ==> w == Full(r, value)
    ensures Put(f, w)[r] == if w.target == r then value else f[r]
  {
  }

  lemma {:induction false} InitPrefix(f: File, r: Address, n: nat)
    requires n <= 21
    ensures PutAll(f, INIT_WRITES[..n])[r] == if 1 <= r <= 0x15 && PlaceOf(r) < n then STARTED[r - 1] else f[r]
  {
    if n > 0 {
      InitPrefix(f, r, n - 1);
      InitStep(r, n - 1);
      PutAllStep(f, INIT_WRITES, n - 1);
      FullAt(PutAll(f, INIT_WRITES[..n - 1]), INIT_WRITES[n - 1], r, if 1 <= r <= 0x15 then STARTED[r - 1] else 0);
    }
  }

  /** The capability blocks set every register from 0x01 to 0x15, and no other. */
  lemma InitRegisters(f: File, r: Address)
    ensures PutAll(f, INIT_WRITES)[r] == if 1 <= r <= 0x15 then STARTED[r - 1] else f[r]
  {
    InitPrefix(f, r, 21);
    if 1 <= r <= 0x15 {
      InitPlace(r);
    }
    assert INIT_WRITES[..21] == INIT_WRITES;
  }

  /** The capability blocks are in place; the two priming writes may or may not have got through. */
  ghost predicate StartedAfresh(before: File, after: File) {
    && (forall r: Address | r != LNA_OVERRIDE && r != LNA_GAIN ::
          after[r] == if 1 <= r <= 0x15 then STARTED[r - 1] else before[r])
    && after[LNA_OVERRIDE] in {0x02, 0x0A} && after[LNA_GAIN] in {0x00, 0x02}
  }

  lemma PrimedAfter(before: File, blocks: File, after: File)
    requires blocks == PutAll(before, INIT_WRITES)
    requires forall r: Address | r != LNA_OVERRIDE && r != LNA_GAIN :: after[r] == blocks[r]
    requires after[LNA_OVERRIDE] in {blocks[LNA_OVERRIDE], 0x0A} && after[LNA_GAIN] in {blocks[LNA_GAIN], 0x02}
    ensures StartedAfresh(before, after)
  {
    forall r: Address
      ensures blocks[r] == if 1 <= r <= 0x15 then STARTED[r - 1] else before[r]
    {
      InitRegisters(before, r);
    }
    assert blocks[LNA_OVERRIDE] == STARTED[12] && blocks[LNA_GAIN] == STARTED[18];
  }

  // ---- The session ----

  /** The writes that start a measurement. */
  const PULSE: seq<Intent> := [Full(VCO_CAL, 0x80), Full(VCO_CAL, 0x00)]

  class Chip {
    const regs: array<byte>
    var gate: bool
    /** Every write attempted, in order, and how many of them failed. */
    ghost var log: seq<Intent>
    ghost var faults: nat
    /** The code the last calibration readback came to. */
    ghost var measured: byte

    ghost predicate Valid()
    {
      regs.Length == 256
    }

    ghost function Regs(): File
      requires Valid()
      reads regs
    {
      regs[..]
    }

    constructor (regs: array<byte>, gate: bool)
      requires regs.Length == 256
      ensures Valid() && this.regs == regs && this.gate == gate && log == [] && faults == 0
    {
      this.regs, this.gate := regs, gate;
      log, faults, measured := [], 0, 0;
    }

    /** Open the gate and leave it open; whether that worked shows only in the write itself. */
    method WireWrite(location: Address, content: byte) returns (rc: Status)
      requires Valid()
      modifies this, regs
      ensures rc in {Ok, UsbError} && faults == old(faults) + (if rc == Ok then 0 else 1)
      ensures log == old(log) + [Full(location, content)] && measured == old(measured)
      ensures Regs() == if rc == Ok then Put(old(Regs()), Full(location, content)) else old(Regs())
    {
      log := log + [Full(location, content)];
      var granted: bool, ok: bool := *, *;
      gate := gate || granted;
      if !gate || !ok {
        faults := faults + 1;
        return UsbError;
      }
      regs[location] := content;
      rc := Ok;
    }

    /** The calibration readback is whatever the VCO does; a read that fails leaves code 0. */
    method ReadCalibration() returns (code: byte)
      modifies this`gate, this`measured
      ensures measured == code
    {
      var granted: bool, ok: bool, content: byte := *, *, *;
      gate := gate || granted;
      code := if gate && ok then content & 0x3F else 0;
      measured := code;
    }

    method Dispatch(cmds: seq<Intent>) returns (rc: Status, ghost done: nat)
      requires Valid() && forall i | 0 <= i < |cmds| :: cmds[i].action.AssignFull? && cmds[i].mask == 0xFF
      modifies this, regs
      ensures rc in {Ok, UsbError} && done <= |cmds| && (rc == Ok <==> done == |cmds|)
      ensures faults == old(faults) + (if rc == Ok then 0 else 1)
      ensures Regs() == PutAll(old(Regs()), cmds[..done])
      ensures log == old(log) + cmds[..if rc == Ok then done else done + 1]
    {
      rc, done := Ok, 0;
      for i := 0 to |cmds|
        invariant rc == Ok && done == i && Regs() == PutAll(old(Regs()), cmds[..i])
        invariant faults == old(faults) && log == old(log) + cmds[..i]
      {
        assert cmds[..i + 1][..i] == cmds[..i] && cmds[..i + 1] == cmds[..i] + [cmds[i]];
        assert cmds[i] == Full(cmds[i].target, cmds[i].value);
        rc := WireWrite(cmds[i].target, cmds[i].value);
        if rc != Ok {
          return;
        }
        done := i + 1;
      }
      assert cmds[..|cmds|] == cmds;
    }

    /** Cold start: the capability blocks up to the first failure; then, unchecked, the gain latch is primed. */
    method Init() returns (rc: Status, ghost done: nat)
      requires Valid()
      modifies this, regs
      ensures rc in {Ok, UsbError} && (rc == UsbError ==> faults > old(faults)) && faults >= old(faults)
      ensures rc == UsbError ==> done < |INIT_WRITES| && Regs() == PutAll(old(Regs()), INIT_WRITES[..done])
      ensures rc == Ok ==> log == old(log) + INIT_WRITES + PRIME && StartedAfresh(old(Regs()), Regs())
      ensures rc == Ok && faults == old(faults) ==> Regs()[LNA_OVERRIDE] == 0x0A && Regs()[LNA_GAIN] == 0x02
    {
      rc, done := Dispatch(INIT_WRITES);
      if rc != Ok {
        return;
      }
      assert INIT_WRITES[..done] == INIT_WRITES;
      ghost var start, blocks := old(Regs()), Regs();
      var _ := WireWrite(PRIME[0].target, PRIME[0].value);
      var _ := WireWrite(PRIME[1].target, PRIME[1].value);
      PrimedAfter(start, blocks, Regs());
    }

    /** One calibration write; a failure goes unnoticed. */
    method Nudge(w: Intent, sel: Selection, ghost before: File, ghost trace: seq<Intent>) returns (ghost trace': seq<Intent>)
      requires Valid() && Regs() == PutAll(before, trace)
      requires CalibrationWrites(trace, sel) && CalibrationWrite(w, sel)
      modifies this, regs
      ensures Regs() == PutAll(before, trace') && CalibrationWrites(trace', sel)
      ensures log == old(log) + [w] && measured == old(measured)
      ensures trace' == (if faults == old(faults) then trace + [w] else trace) && old(faults) <= faults
      ensures Corrects(trace') <==> Corrects(trace) || (faults == old(faults) && w.target == VCO_BW)
    {
      var rc := WireWrite(w.target, w.value);
      trace' := trace;
      if rc == Ok {
        trace' := trace + [w];
        assert trace'[..|trace|] == trace;
        CorrectsSnoc(trace, w);
      }
    }

    /** Start a measurement. */
    method Pulse(sel: Selection, ghost before: File, ghost trace: seq<Intent>) returns (ghost trace': seq<Intent>)
      requires Valid() && Regs() == PutAll(before, trace) && CalibrationWrites(trace, sel)
      modifies this, regs
      ensures Regs() == PutAll(before, trace') && CalibrationWrites(trace', sel)
      ensures log == old(log) + PULSE && measured == old(measured)
      ensures old(faults) <= faults && (Corrects(trace') <==> Corrects(trace))
    {
      trace' := Nudge(PULSE[0], sel, before, trace);
      trace' := Nudge(PULSE[1], sel, before, trace');
    }

    /** Measure, and exactly if the verdict calls for it correct the bias and measure again. */
    method Calibrate(sel: Selection) returns (adjusted: bool, ghost trace: seq<Intent>)
      requires Valid()
      modifies this, regs
      ensures Regs() == PutAll(old(Regs()), trace) && CalibrationWrites(trace, sel)
      ensures adjusted == if sel.elevatedBias then measured > 0x3C else measured < 0x02
      ensures log == old(log) + [Full(VCO_CAL, 0x80), Full(VCO_CAL, 0x00)]
                       + if adjusted then [Full(VCO_BW, CorrectedBias(sel)), Full(VCO_CAL, 0x80), Full(VCO_CAL, 0x00)] else []
      ensures (Corrects(trace) ==> adjusted) && (adjusted && faults == old(faults) ==> Corrects(trace)) && old(faults) <= faults
    {
      ghost var before := Regs();
      trace := Pulse(sel, before, []);
      var code := ReadCalibration();
      adjusted := NeedsCorrection(sel, code);
      if adjusted {
        trace := Nudge(Full(VCO_BW, CorrectedBias(sel)), sel, before, trace);
        trace := Pulse(sel, before, trace);
      }
    }

    /** Plan, solve, pack, stage, calibrate. An infeasible request writes nothing; a failed write ends the session there. */
    method ExecuteTuningSession(freqHz: nat) returns (rc: Status, ghost done: nat, ghost cal: seq<Intent>)
      requires Valid() && freqHz < 0x1_0000_0000
      modifies this, regs
      ensures rc in {Ok, ParamError, UsbError} && done <= 6
      ensures rc == ParamError <==> !Reachable(freqHz) && !Misread(freqHz)
      ensures rc == ParamError ==> Regs() == old(Regs()) && log == old(log)
      ensures rc == UsbError ==> faults > old(faults) && done < 6 && Regs() == PutAll(old(Regs()), TuningWrites(freqHz)[..done])
      ensures rc == Ok ==> CalibrationWrites(cal, Select(freqHz)) &&
                           Regs() == PutAll(PutAll(old(Regs()), TuningWrites(freqHz)), cal)
      ensures rc == Ok ==> log == old(log) + TuningWrites(freqHz)
                                  + CalibrationLog(Select(freqHz), NeedsCorrection(Select(freqHz), measured))
      ensures rc == Ok ==>
                var elevated := freqHz * Select(freqHz).multiplier >= 3_059_944_320;
                && (Regs()[VCO_BW] & 0x08 != 0 <==> if Corrects(cal) then !elevated else elevated)
                && (Corrects(cal) ==> if elevated then measured > 0x3C else measured < 0x02)
                && ((if elevated then measured > 0x3C else measured < 0x02) && faults == old(faults) ==> Corrects(cal))
    {
      done, cal := 0, [];
      var sel := DeriveMultiplier(freqHz);
      var solution := Normalize(RawRatio(sel.vcoHz));
      AcceptedIff(freqHz);
      if !solution.feasible {
        return ParamError, done, cal;
      }
      var cmds := TuningWrites(freqHz);
      rc, done := Dispatch(cmds);
      if rc != Ok {
        return;
      }
      assert cmds[..done] == cmds;
      var adjusted;
      adjusted, cal := Calibrate(sel);
      BiasAfterSession(old(Regs()), freqHz, cal);
    }
  }

  /** The writes a calibration attempts. */
  function CalibrationLog(sel: Selection, adjusted: bool): seq<Intent> {
    if adjusted then PULSE + [Full(VCO_BW, CorrectedBias(sel))] + PULSE else PULSE
  }
}
