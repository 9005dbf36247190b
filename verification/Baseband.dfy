/**
 Fixed-point words of the RTL2832U: resampler ratio, NCO word, FIR coefficients. Masks and
 shifts on 32-bit words are written as the divisions and remainders they are; on negative
 numbers a right shift rounds down, as Dafny's `/` does for a positive divisor.
 */
module Baseband {
  import opened Words

  const XTAL_HZ: nat := 28_800_000

  // ---- Resampler ratio ----

  /** floor(xtal * 2^22 / rate), before it is masked. */
  function ExactRatio(xtal: nat, rate: nat): nat
    requires 0 < rate
  {
    xtal * 0x40_0000 / rate
  }

  /** r & 0x0FFFFFFC: bits 2 to 27. */
  function Masked(r: nat): nat {
    r % 0x1000_0000 - r % 4
  }

  /** The 28-bit ratio written to the demodulator. */
  function Ratio(xtal: nat, rate: nat): (r: nat)
    requires 0 < rate
  {
    Masked(U32(ExactRatio(xtal, rate)))
  }

  /** ratio | ((ratio & 0x08000000) << 1): bit 27 copied into bit 28, which masking left clear. */
  function Extended(ratio: nat): nat {
    if ratio / 0x800_0000 % 2 == 1 then ratio + 0x1000_0000 else ratio
  }

  function EffectiveRatio(xtal: nat, rate: nat): nat
    requires 0 < rate
  {
    Extended(Ratio(xtal, rate))
  }

  predicate Accepted(rate: nat) {
    225000 <= rate <= 3200000
  }

  /** Crystals, corrected or not, and rates that leave a ratio of zero to divide by. */
  predicate DividesByZero(xtal: nat, rate: nat)
    requires 0 < rate
  {
    xtal % (64 * rate) * 0x10_0000 < rate
  }

  /** The two bands of crystal to rate in which copying bit 27 restores what masking took off. */
  predicate Faithful(xtal: nat, rate: nat) {
    xtal < 32 * rate || 96 * rate <= xtal < 128 * rate
  }

  /** How many times 2^28 the effective ratio falls short of the exact one, by the exact ratio's bits from 27 up. */
  function Lost(high: nat): int {
    high / 2 - high % 2
  }

  /** A number and its remainder by one power of two have the same remainder by a smaller one. */
  lemma Lower28Stay(r: nat, a: nat, b: nat)
    requires r == 0x1_0000_0000 * a + b
    ensures b % 0x1000_0000 == r % 0x1000_0000
  {
    var k, l := b / 0x1000_0000, b % 0x1000_0000;
    assert r == 0x1000_0000 * (16 * a + k) + l;
  }

  lemma Lower2Stay(r: nat, a: nat, b: nat)
    requires r == 0x1_0000_0000 * a + b
    ensures b % 4 == r % 4
  {
    var k, l := b / 4, b % 4;
    assert r == 4 * (0x4000_0000 * a + k) + l;
  }

  /** The 32-bit conversion is nothing to the mask, which keeps fewer bits. */
  lemma MaskedWord(r: nat)
    ensures Masked(U32(r)) == Masked(r)
  {
    Lower28Stay(r, r / 0x1_0000_0000, r % 0x1_0000_0000);
    Lower2Stay(r, r / 0x1_0000_0000, r % 0x1_0000_0000);
  }

  lemma Lower28Is(r: nat, k: nat, b: nat)
    requires r == 0x1000_0000 * k + b && b < 0x1000_0000
    ensures r % 0x1000_0000 == b
  {
  }

  lemma Lower2Is(r: nat, k: nat, low: nat)
    requires r == 0x800_0000 * k + low
    ensures r % 4 == low % 4
  {
    var q, two := low / 4, low % 4;
    assert r == 4 * (0x200_0000 * k + q) + two;
  }

  lemma MaskedIs(r: nat, k: nat, bit: nat, low: nat)
    requires r == 0x1000_0000 * k + 0x800_0000 * bit + low && bit < 2 && low < 0x800_0000
    ensures r % 0x1000_0000 == 0x800_0000 * bit + low && r % 4 == low % 4
    ensures Masked(r) == 0x800_0000 * bit + (low - low % 4)
  {
    Lower28Is(r, k, 0x800_0000 * bit + low);
    Lower2Is(r, 2 * k + bit, low);
  }

  lemma ExtendedIs(bit: nat, m: nat)
    requires bit < 2 && m < 0x800_0000
    ensures Extended(0x800_0000 * bit + m) == if bit == 1 then 0x1800_0000 + m else m
  {
    assert (0x800_0000 * bit + m) / 0x800_0000 == bit;
  }

  /** Masking and extending, in one formula. */
  lemma ExtendedMasked(r: nat, high: nat, low: nat)
    requires r == 0x800_0000 * high + low && low < 0x800_0000
    ensures Extended(Masked(r)) == r - r % 4 - 0x1000_0000 * Lost(high)
    ensures Extended(Masked(r)) == 0 <==> r % 0x1000_0000 < 4
  {
    MaskedIs(r, high / 2, high % 2, low);
    ExtendedIs(high % 2, low - low % 4);
  }

  /** Crystal over 32 rates: the ratio from bit 27 up. */
  function High(xtal: nat, rate: nat): (h: nat)
    requires 0 < rate
  {
    Quotient(xtal, 32 * rate);
    xtal / (32 * rate)
  }

  lemma HighMeans(xtal: nat, rate: nat)
    requires 0 < rate
    ensures 32 * rate * High(xtal, rate) <= xtal < 32 * rate * High(xtal, rate) + 32 * rate
  {
    Quotient(xtal, 32 * rate);
  }

  /** The high bits of the ratio are those of xtal / (32 rate). */
  lemma HighBits(xtal: nat, rate: nat)
    requires 0 < rate
    ensures ExactRatio(xtal, rate) / 0x800_0000 == High(xtal, rate)
  {
    var h := High(xtal, rate);
    var p := rate * h;
    HighMeans(xtal, rate);
    assert 32 * rate * h == 32 * p && rate * (0x800_0000 * h) == 0x800_0000 * p;
    assert rate * (0x800_0000 * (h + 1)) == 0x800_0000 * p + 0x800_0000 * rate;
    QuotientAtLeast(xtal * 0x40_0000, rate, 0x800_0000 * h);
    QuotientAtLeast(xtal * 0x40_0000, rate, 0x800_0000 * (h + 1));
  }

  lemma Remainder(c: nat, v: nat)
    requires 0 < v
    ensures c == v * (c / v) + c % v && 0 <= c % v < v
  {
  }

  /** What is left of the ratio below 2^28 is the ratio of what is left of the crystal. */
  lemma LowBits(xtal: nat, rate: nat)
    requires 0 < rate
    ensures ExactRatio(xtal, rate) % 0x1000_0000 == xtal % (64 * rate) * 0x40_0000 / rate
  {
    var k, x := xtal / (64 * rate), xtal % (64 * rate);
    Quotient(xtal, 64 * rate);
    Remainder(xtal, 64 * rate);
    Quotient(x * 0x40_0000, rate);
    QuotientAtLeast(x * 0x40_0000, rate, 0x1000_0000);
    LowBitsOf(xtal, rate, k, x, x * 0x40_0000 / rate);
  }

  lemma LowBitsOf(xtal: nat, rate: nat, k: nat, x: nat, q: nat)
    requires 0 < rate && xtal == 64 * rate * k + x && q < 0x1000_0000
    requires rate * q <= x * 0x40_0000 < rate * q + rate
    ensures xtal * 0x40_0000 / rate % 0x1000_0000 == q
  {
    var p := rate * k;
    assert 64 * rate * k == 64 * p;
    assert rate * (0x1000_0000 * k + q) == 0x1000_0000 * p + rate * q;
    QuotientIs(xtal * 0x40_0000, rate, 0x1000_0000 * k + q);
    LowOfSum(k, q);
  }

  lemma LowOfSum(k: nat, q: nat)
    requires q < 0x1000_0000
    ensures (0x1000_0000 * k + q) % 0x1000_0000 == q
  {
  }

  /** The effective ratio of any crystal and rate. */
  lemma EffectiveIs(xtal: nat, rate: nat)
    requires 0 < rate
    ensures var r := ExactRatio(xtal, rate);
            && EffectiveRatio(xtal, rate) == r - r % 4 - 0x1000_0000 * Lost(High(xtal, rate))
            && (EffectiveRatio(xtal, rate) == 0 <==> r % 0x1000_0000 < 4)
  {
    var r := ExactRatio(xtal, rate);
    MaskedWord(r);
    HighBits(xtal, rate);
    ExtendedMasked(r, r / 0x800_0000, r % 0x800_0000);
  }

  /** Which crystals and rates leave a ratio of zero. */
  lemma ZeroRatio(xtal: nat, rate: nat)
    requires 0 < rate
    ensures EffectiveRatio(xtal, rate) == 0 <==> DividesByZero(xtal, rate)
  {
    EffectiveIs(xtal, rate);
    LowBits(xtal, rate);
    QuotientAtLeast(xtal % (64 * rate) * 0x40_0000, rate, 4);
  }

  /** The bands, by high bits. */
  lemma Bands(xtal: nat, v: nat, h: nat)
    requires v * h <= xtal < v * h + v
    ensures xtal < v <==> h == 0
    ensures 3 * v <= xtal < 4 * v <==> h == 3
    ensures xtal < 2 * v <==> h <= 1
  {
    if h == 0 {
    } else if h == 1 {
    } else if h == 2 {
    } else if h == 3 {
    } else {
      Times(v, 4, h);
    }
  }

  lemma BandsOfHighBits(xtal: nat, rate: nat)
    requires 0 < rate
    ensures Faithful(xtal, rate) <==> Lost(High(xtal, rate)) == 0
  {
    HighMeans(xtal, rate);
    Bands(xtal, 32 * rate, High(xtal, rate));
  }

  /** The effective ratio is the exact one rounded down to a multiple of 4 on the two faithful bands and nowhere else. */
  lemma FaithfulRatio(xtal: nat, rate: nat)
    requires 0 < rate
    ensures EffectiveRatio(xtal, rate) == ExactRatio(xtal, rate) - ExactRatio(xtal, rate) % 4 <==> Faithful(xtal, rate)
  {
    EffectiveIs(xtal, rate);
    BandsOfHighBits(xtal, rate);
  }

  /** The rate the driver reports back. */
  function StoredRate(xtal: nat, rate: nat): nat
    requires 0 < rate && !DividesByZero(xtal, rate)
  {
    ZeroRatio(xtal, rate);
    U32(xtal * 0x40_0000 / EffectiveRatio(xtal, rate))
  }

  /** The ratio the demodulator works with: bits 2 to 27 of the full one, and bit 28 a copy of bit 27. */
  lemma DemodulatorRatio(xtal: nat, rate: nat, r: nat)
    requires 0 < rate && rate * r <= xtal * 0x40_0000 < rate * r + rate
    ensures EffectiveRatio(xtal, rate) ==
              r % 0x1000_0000 - r % 4 + if r % 0x1000_0000 >= 0x800_0000 then 0x1000_0000 else 0
  {
    QuotientIs(xtal * 0x40_0000, rate, r);
    MaskedBits(r);
  }

  lemma MaskedBits(r: nat)
    ensures Extended(Masked(U32(r))) == r % 0x1000_0000 - r % 4 + if r % 0x1000_0000 >= 0x800_0000 then 0x1000_0000 else 0
  {
    var b := r % 0x1000_0000;
    var bit, low := b / 0x800_0000, b % 0x800_0000;
    MaskedWord(r);
    MaskedIs(r, r / 0x1000_0000, bit, low);
    ExtendedIs(bit, low - low % 4);
  }

  /** Whatever the band, the stored rate is the scaled crystal divided by that ratio, cut to 32 bits. */
  lemma AchievedRate(xtal: nat, rate: nat, e: nat, q: nat)
    requires 0 < rate && !DividesByZero(xtal, rate) && e == EffectiveRatio(xtal, rate)
    requires e * q <= xtal * 0x40_0000 < e * q + e
    ensures StoredRate(xtal, rate) == U32(q)
  {
    QuotientIs(xtal * 0x40_0000, e, q);
  }

  // ---- Which stored rates are the requested ones ----

  /** What rounding the ratio down to a multiple of 4 drops of the scaled crystal. */
  function Dropped(xtal: nat, rate: nat): (t: nat)
    requires 0 < rate
    ensures t < 4 * rate
  {
    xtal * 0x40_0000 % (4 * rate)
  }

  /** It is less than that ratio. */
  predicate FineEnough(xtal: nat, rate: nat)
    requires 0 < rate
  {
    Dropped(xtal, rate) < 4 * (xtal * 0x40_0000 / (4 * rate))
  }

  /**
   A ratio that is too small although the rate comes back: the achieved rate is then too large
   by a multiple of 2^32, which its conversion to 32 bits takes off again.
   */
  predicate WrapsBack(xtal: nat, rate: nat)
    requires 0 < rate && !DividesByZero(xtal, rate)
  {
    var lost, e := Lost(High(xtal, rate)), EffectiveRatio(xtal, rate);
    ZeroRatio(xtal, rate);
    lost >= 1 && lost * rate % (16 * e) == 0 && Dropped(xtal, rate) < e
  }

  lemma QuarterOf(c: nat, rate: nat, r: nat)
    requires 0 < rate && rate * r <= c < rate * r + rate
    ensures c / (4 * rate) == r / 4
  {
    var q, two := r / 4, r % 4;
    assert rate * r == 4 * rate * q + rate * two by { assert r == 4 * q + two; }
    Times(rate, two, 3);
    Times(rate, 0, two);
    QuotientIs(c, 4 * rate, q);
  }

  lemma AddBack(rate: nat, q: nat, lost: int)
    ensures rate * (4 * q - 0x1000_0000 * lost) + 0x1000_0000 * (lost * rate) == 4 * rate * q
  {
  }

  lemma SplitOf(c: nat, rate: nat, r: nat, lost: int, e: int)
    requires 0 < rate && rate * r <= c < rate * r + rate && e == r - r % 4 - 0x1000_0000 * lost
    ensures e == 4 * (c / (4 * rate)) - 0x1000_0000 * lost
    ensures c == rate * e + 0x1000_0000 * (lost * rate) + c % (4 * rate)
  {
    QuarterOf(c, rate, r);
    AddBack(rate, r / 4, lost);
    Remainder(c, 4 * rate);
  }

  /** The scaled crystal, split along the effective ratio. */
  lemma ScaledSplit(xtal: nat, rate: nat, lost: int)
    requires 0 < rate && lost == Lost(High(xtal, rate))
    ensures EffectiveRatio(xtal, rate) == 4 * (xtal * 0x40_0000 / (4 * rate)) - 0x1000_0000 * lost
    ensures xtal * 0x40_0000 ==
              rate * EffectiveRatio(xtal, rate) + 0x1000_0000 * (lost * rate) + Dropped(xtal, rate)
  {
    EffectiveIs(xtal, rate);
    Quotient(xtal * 0x40_0000, rate);
    SplitOf(xtal * 0x40_0000, rate, ExactRatio(xtal, rate), lost, EffectiveRatio(xtal, rate));
  }

  /** With nothing lost, the quotient is the rate and what the rest amounts to. */
  lemma NothingLost(c: nat, rate: nat, e: nat, t: nat)
    requires 0 < e && c == rate * e + t && t < 4 * rate <= 0x2000_0000
    ensures U32(c / e) == rate <==> t < e
  {
    Quotient(t, e);
    Times(t / e, 1, e);
    assert e * (rate + t / e) == rate * e + e * (t / e);
    QuotientIs(c, e, rate + t / e);
    QuotientAtLeast(t, e, 1);
    SmallNumbersStay(rate + t / e);
  }

  /** A ratio too large, a rate too small. */
  lemma TooLargeRatio(c: nat, rate: nat, e: nat, t: nat)
    requires 0 < e && c == rate * e - 0x1000_0000 * rate + t && t < 4 * rate && 0 < rate < 0x1_0000_0000
    ensures U32(c / e) != rate
  {
    assert e * rate == rate * e;
    QuotientAtLeast(c, e, rate);
    SmallNumbersStay(c / e);
  }

  /** A ratio too small: the rate comes back exactly when the quotient is too large by a multiple of 2^32. */
  lemma TooSmallRatio(c: nat, rate: nat, e: nat, lost: nat, t: nat)
    requires 0 < e < 0x2000_0000 && 1 <= lost && 225000 <= rate < 0x1_0000_0000 && t < 4 * rate < 0x1000_0000
    requires c == rate * e + 0x1000_0000 * (lost * rate) + t && c < 0x40_0000_0000_0000
    ensures U32(c / e) == rate <==> lost * rate % (16 * e) == 0 && t < e
  {
    var lr := lost * rate;
    Times(rate, 1, lost);
    Quotient(c, e);
    Quotient(lr, 16 * e);
    Remainder(lr, 16 * e);
    if lr % (16 * e) == 0 && t < e {
      WrapsWhenDivides(c, rate, e, lr, t, lr / (16 * e));
    }
    if U32(c / e) == rate {
      DividesWhenWraps(c, rate, e, lr, t, c / e / 0x1_0000_0000);
    }
  }

  lemma WrapsWhenDivides(c: nat, rate: nat, e: nat, lr: nat, t: nat, m: nat)
    requires 0 < e && t < e && rate < 0x1_0000_0000 && lr == 16 * e * m && c == rate * e + 0x1000_0000 * lr + t
    ensures U32(c / e) == rate
  {
    assert e * (rate + 0x1_0000_0000 * m) == rate * e + 0x1000_0000 * (16 * e * m);
    QuotientIs(c, e, rate + 0x1_0000_0000 * m);
  }

  lemma DividesWhenWraps(c: nat, rate: nat, e: nat, lr: nat, t: nat, m: nat)
    requires 0 < e < 0x2000_0000 && 225000 <= lr && t < 0x1000_0000 && c < 0x40_0000_0000_0000
    requires c == rate * e + 0x1000_0000 * lr + t && c / e == rate + 0x1_0000_0000 * m
    ensures lr % (16 * e) == 0 && t < e
  {
    var em, p := e * m, rate * e;
    Quotient(c, e);
    assert e * (rate + 0x1_0000_0000 * m) == p + 0x1_0000_0000 * em;
    if m > 0 {
      Times(e, 1, m);
    }
    MultiplesMeet(e, em, lr, t);
    assert lr == 16 * e * m;
    MultipleLeavesNothing(16 * e, m);
  }

  /** Two multiples of 2^28 that differ by less than 2^28 are one. */
  lemma MultiplesMeet(e: nat, em: nat, lr: nat, t: nat)
    requires e < 0x2000_0000 && 225000 <= lr && t < 0x1000_0000 && (em == 0 || e <= em <= 0x40_0000)
    requires 0x1_0000_0000 * em <= 0x1000_0000 * lr + t < 0x1_0000_0000 * em + e
    ensures lr == 16 * em && t < e
  {
  }

  lemma MultipleLeavesNothing(a: nat, m: nat)
    requires 0 < a
    ensures a * m % a == 0
  {
    QuotientIs(a * m, a, m);
    Remainder(a * m, a);
  }

  lemma MaskedFits(r: nat)
    ensures Extended(Masked(r)) < 0x2000_0000 && Extended(Masked(r)) % 4 == 0
  {
    var k, l := r / 4, r % 4;
    assert r == 4 * k + l;
    assert r % 0x1000_0000 == 4 * (k % 0x400_0000) + l;
  }

  lemma EffectiveFits(xtal: nat, rate: nat)
    requires 0 < rate
    ensures EffectiveRatio(xtal, rate) < 0x2000_0000 && EffectiveRatio(xtal, rate) % 4 == 0
  {
    MaskedFits(U32(ExactRatio(xtal, rate)));
  }

  lemma StoredWhenFaithful(xtal: nat, rate: nat)
    requires Accepted(rate) && !DividesByZero(xtal, rate) && Lost(High(xtal, rate)) == 0
    ensures StoredRate(xtal, rate) == rate <==> FineEnough(xtal, rate)
  {
    ZeroRatio(xtal, rate);
    ScaledSplit(xtal, rate, 0);
    NothingLost(xtal * 0x40_0000, rate, EffectiveRatio(xtal, rate), Dropped(xtal, rate));
  }

  lemma StoredWhenTooLarge(xtal: nat, rate: nat)
    requires Accepted(rate) && !DividesByZero(xtal, rate) && Lost(High(xtal, rate)) < 0
    ensures StoredRate(xtal, rate) != rate
  {
    ZeroRatio(xtal, rate);
    ScaledSplit(xtal, rate, -1);
    TooLargeRatio(xtal * 0x40_0000, rate, EffectiveRatio(xtal, rate), Dropped(xtal, rate));
  }

  lemma StoredWhenTooSmall(xtal: nat, rate: nat)
    requires Accepted(rate) && xtal < 0x1_0000_0000 && !DividesByZero(xtal, rate) && Lost(High(xtal, rate)) >= 1
    ensures StoredRate(xtal, rate) == rate <==> WrapsBack(xtal, rate)
  {
    var lost := Lost(High(xtal, rate));
    ZeroRatio(xtal, rate);
    ScaledSplit(xtal, rate, lost);
    EffectiveFits(xtal, rate);
    TooSmallRatio(xtal * 0x40_0000, rate, EffectiveRatio(xtal, rate), lost, Dropped(xtal, rate));
  }

  /**
   For every crystal that fits 32 bits, corrected or not, the stored rate is the requested one,
   to the hertz, exactly on the faithful bands, as long as the ratio is fine enough, and where it
   wraps back.
   */
  lemma StoredRateIff(xtal: nat, rate: nat)
    requires Accepted(rate) && xtal < 0x1_0000_0000 && !DividesByZero(xtal, rate)
    ensures StoredRate(xtal, rate) == rate <==> (Faithful(xtal, rate) && FineEnough(xtal, rate)) || WrapsBack(xtal, rate)
  {
    BandsOfHighBits(xtal, rate);
    if Lost(High(xtal, rate)) == 0 {
      StoredWhenFaithful(xtal, rate);
    } else if Lost(High(xtal, rate)) < 0 {
      StoredWhenTooLarge(xtal, rate);
    } else {
      StoredWhenTooSmall(xtal, rate);
    }
  }

  /** From a crystal of 9,765,625 Hz on every accepted rate is fine enough. */
  lemma FineFromTenMegahertz(xtal: nat, rate: nat)
    requires Accepted(rate) && xtal >= 9_765_625
    ensures FineEnough(xtal, rate)
  {
    Times(rate, rate, 3200000);
    QuotientAtLeast(xtal * 0x40_0000, 4 * rate, rate);
  }

  // ---- The uncorrected crystal ----

  /** Of the accepted rates, exactly 225000 and 450000. */
  lemma ZeroUncorrected(rate: nat)
    requires Accepted(rate)
    ensures DividesByZero(XTAL_HZ, rate) <==> rate == 225000 || rate == 450000
  {
    var k, x := XTAL_HZ / (64 * rate), XTAL_HZ % (64 * rate);
    Quotient(XTAL_HZ, 64 * rate);
    QuotientAtLeast(XTAL_HZ, 64 * rate, 1);
    QuotientAtLeast(XTAL_HZ, 64 * rate, 3);
    if k == 1 {
      assert x == XTAL_HZ - 64 * rate;
    } else if k == 2 {
      assert x == XTAL_HZ - 128 * rate;
    }
  }

  lemma FaithfulUncorrected(rate: nat)
    requires Accepted(rate)
    ensures Faithful(XTAL_HZ, rate) <==> 225000 < rate <= 300000 || 900000 < rate <= 3200000
  {
  }

  /** Were a rate to wrap back, it would be 449984. */
  lemma OneCandidate(em: nat, e: nat, p: nat, t: nat)
    requires 18750 < em < 28125 && 0 < e <= em && em % 4 == 0 && t < e && p <= 450000 * e
    requires 0x1000_0000 * 450000 == p + 0x1_0000_0000 * em + t
    ensures em == 28124
  {
  }

  /** And then the ratio would be 9544, but those two do not multiply to 2^32. */
  lemma NothingWrapsBack(rate: nat, e: nat, t: nat, m: nat)
    requires 300000 < rate < 450000 && 0 < e && e % 4 == 0 && t < e && rate == 16 * e * m
    ensures 0x1000_0000 * 450000 != rate * e + 0x1000_0000 * rate + t
  {
    var em, p := e * m, rate * e;
    assert rate == 16 * em;
    FourDivides(e, m);
    Times(e, 1, m);
    Times(e, rate, 450000);
    if rate == 449984 {
      assert p == 449984 * e;
    }
    if 0x1000_0000 * 450000 == p + 0x1000_0000 * rate + t {
      OneCandidate(em, e, p, t);
    }
  }

  lemma FourDivides(e: nat, m: nat)
    requires e % 4 == 0
    ensures e * m % 4 == 0
  {
    var f := e / 4;
    assert e * m == 4 * (f * m);
  }

  lemma OneLost(rate: nat, h: nat)
    requires 225000 < rate && 32 * rate * h <= XTAL_HZ < 32 * rate * h + 32 * rate
    ensures Lost(h) <= 1
    ensures Lost(h) == 1 ==> 300000 < rate <= 450000
  {
    if h >= 4 {
      Times(32 * rate, 4, h);
    } else if h == 2 {
      assert 32 * rate * 2 == 64 * rate;
    }
  }

  lemma NoWrap(rate: nat, e: nat, lost: int, t: nat)
    requires 225000 < rate && rate != 450000 && lost <= 1 && (lost == 1 ==> 300000 < rate <= 450000)
    requires 0 < e && e % 4 == 0 && XTAL_HZ * 0x40_0000 == rate * e + 0x1000_0000 * (lost * rate) + t
    ensures !(lost >= 1 && lost * rate % (16 * e) == 0 && t < e)
  {
    if lost == 1 && lost * rate % (16 * e) == 0 && t < e {
      assert lost * rate == rate;
      Quotient(rate, 16 * e);
      Remainder(rate, 16 * e);
      NothingWrapsBack(rate, e, t, rate / (16 * e));
    }
  }

  lemma UncorrectedNeverWrapsBack(rate: nat)
    requires Accepted(rate) && !DividesByZero(XTAL_HZ, rate)
    ensures !WrapsBack(XTAL_HZ, rate)
  {
    var lost := Lost(High(XTAL_HZ, rate));
    ZeroUncorrected(rate);
    ZeroRatio(XTAL_HZ, rate);
    HighMeans(XTAL_HZ, rate);
    OneLost(rate, High(XTAL_HZ, rate));
    ScaledSplit(XTAL_HZ, rate, lost);
    EffectiveFits(XTAL_HZ, rate);
    NoWrap(rate, EffectiveRatio(XTAL_HZ, rate), lost, Dropped(XTAL_HZ, rate));
  }

  /** At the crystal's own frequency the stored rate is the requested one exactly on the two bands. */
  lemma StoredRateUncorrected(rate: nat)
    requires Accepted(rate) && rate != 225000 && rate != 450000
    ensures !DividesByZero(XTAL_HZ, rate)
    ensures StoredRate(XTAL_HZ, rate) == rate <==> 225000 < rate <= 300000 || 900000 < rate <= 3200000
  {
    ZeroUncorrected(rate);
    StoredRateIff(XTAL_HZ, rate);
    FineFromTenMegahertz(XTAL_HZ, rate);
    UncorrectedNeverWrapsBack(rate);
    FaithfulUncorrected(rate);
  }

  /** With this crystal and rate the effective ratio is 2560, and 11 * 16 * 2560 is the rate. */
  lemma WrappingRate(xtal: nat, rate: nat)
    requires xtal == 28_836_115 && rate == 450_560
    ensures !DividesByZero(xtal, rate) && !Faithful(xtal, rate) && WrapsBack(xtal, rate)
  {
    QuotientIs(xtal * 0x40_0000, 4 * rate, 67_109_504);
    QuotientIs(xtal, 32 * rate, 2);
    ScaledSplit(xtal, rate, 1);
    ZeroRatio(xtal, rate);
  }

  // ---- NCO word ----

  const NCO_HI: nat := 0x19

  /** The (negative) phase step for an IF; int32_t holds it for every uint32_t frequency. */
  function NcoWord(ifHz: nat): int {
    if ifHz == 0 then 0 else -(ifHz * 0x40_0000 / XTAL_HZ)
  }

  /** The 6 + 8 + 8 bits sent to the demodulator. */
  function NcoBytes(word: int): (b: seq<nat>)
    ensures |b| == 3
  {
    [word / 0x1_0000 % 0x40, word / 0x100 % 0x100, word % 0x100]
  }

  /** What the demodulator makes of them: a 22-bit two's complement number. */
  function DecodeNco(b: seq<nat>): int
    requires |b| == 3
  {
    var w: int := 0x1_0000 * b[0] + 0x100 * b[1] + b[2];
    if w < 0x20_0000 then w else w - 0x40_0000
  }

  lemma LowBytes(word: int, h: int, m: int, l: int)
    requires word == 0x1_0000 * h + 0x100 * m + l && 0 <= m < 0x100 && 0 <= l < 0x100
    ensures word / 0x1_0000 == h && word % 0x100 == l
    ensures word / 0x100 % 0x100 == m
  {
    assert word / 0x100 == 0x100 * h + m;
  }

  lemma HighBitsOfWord(word: int, h: int, rest: int)
    requires word == 0x1_0000 * h + rest && 0 <= rest < 0x1_0000
    ensures word % 0x40_0000 == 0x1_0000 * (h % 0x40) + rest
  {
    var k, top := h / 0x40, h % 0x40;
    assert word == 0x40_0000 * k + (0x1_0000 * top + rest);
  }

  lemma Low22Bits(word: int)
    ensures 0x1_0000 * (word / 0x1_0000 % 0x40) + 0x100 * (word / 0x100 % 0x100) + word % 0x100 == word % 0x40_0000
  {
    var h, rest := word / 0x1_0000, word % 0x1_0000;
    LowBytes(word, h, rest / 0x100, rest % 0x100);
    HighBitsOfWord(word, h, rest);
  }

  lemma NcoRoundTrip(word: int)
    ensures DecodeNco(NcoBytes(word)) == word <==> -0x20_0000 <= word < 0x20_0000
    ensures -0x20_0000 <= DecodeNco(NcoBytes(word)) < 0x20_0000
  {
    Low22Bits(word);
    assert word % 0x40_0000 == word || word % 0x40_0000 == word + 0x40_0000 || !(-0x20_0000 <= word < 0x20_0000);
  }

  /**
   The bits decode to minus floor(if * 2^22 / 28.8 MHz) exactly for IFs up to 14.4 MHz (and the
   few hertz beyond that round to it), and then the decoded frequency falls short of the
   request by less than one step of 28.8 MHz / 2^22.
   */
  lemma NcoAccuracy(ifHz: nat)
    ensures DecodeNco(NcoBytes(NcoWord(ifHz))) == -(ifHz * 0x40_0000 / XTAL_HZ) <==> ifHz <= 14_400_006
    ensures ifHz <= 14_400_006 ==>
              var achieved := -DecodeNco(NcoBytes(NcoWord(ifHz))) * XTAL_HZ;
              achieved <= ifHz * 0x40_0000 < achieved + XTAL_HZ
  {
    NcoRoundTrip(NcoWord(ifHz));
  }

  // ---- FIR coefficients ----

  /** The first half of the shipped symmetric kernel. */
  const FILTER_KERNEL: seq<int> := [-54, -36, -41, -40, -32, -14, 14, 53, 101, 156, 215, 273, 327, 372, 404, 421]

  /** The bits the demodulator takes for tap k: a byte for taps 0 to 7, half of a three-byte group for 8 to 15. */
  function RawTap(p: seq<nat>, k: nat): nat
    requires |p| == 20 && k < 16
  {
    if k < 8 then p[k]
    else
      var at := 8 + (k - 8) / 2 * 3;
      if k % 2 == 0 then 16 * p[at] + p[at + 1] / 16 else p[at + 1] % 16 * 256 + p[at + 2]
  }

  function Width(k: nat): nat {
    if k < 8 then 0x100 else 0x1000
  }

  /** Those bits as a signed number. */
  function Tap(p: seq<nat>, k: nat): int
    requires |p| == 20 && k < 16
  {
    if RawTap(p, k) < Width(k) / 2 then RawTap(p, k) else RawTap(p, k) as int - Width(k)
  }

  predicate Fits(kernel: seq<int>)
    requires |kernel| == 16
  {
    && (forall k | 0 <= k < 8 :: -128 <= kernel[k] <= 127)
    && (forall k | 8 <= k < 16 :: -2048 <= kernel[k] <= 2047)
  }

  /** Every tap of the kernel is in the bytes, modulo its width. */
  predicate Holds(p: seq<nat>, kernel: seq<int>, n: nat)
    requires |p| == 20 && |kernel| == 16 && n <= 16
  {
    forall k | 0 <= k < n :: RawTap(p, k) == kernel[k] % Width(k)
  }

  /** Unpacking gives a kernel back exactly when its first eight taps fit 8 bits and the rest 12; the shipped one does. */
  lemma FirRoundTrip(p: seq<nat>, kernel: seq<int>)
    requires |p| == 20 && |kernel| == 16 && Holds(p, kernel, 16)
    ensures (forall k | 0 <= k < 16 :: Tap(p, k) == kernel[k]) <==> Fits(kernel)
    ensures Fits(FILTER_KERNEL)
  {
    forall k | 0 <= k < 16
      ensures Tap(p, k) == kernel[k] <==> (if k < 8 then -128 <= kernel[k] <= 127 else -2048 <= kernel[k] <= 2047)
    {
      SignRoundTrip(kernel[k], Width(k));
      assert RawTap(p, k) == kernel[k] % Width(k);
    }
  }

  lemma SignRoundTrip(x: int, width: nat)
    requires width in {0x100, 0x1000}
    ensures (if x % width < width / 2 then x % width else x % width - width) == x <==> -(width as int) / 2 <= x < width / 2
  {
    if width == 0x100 {
    } else {
    }
  }

  lemma PairBytes(a: int, b: int)
    ensures 16 * U8(a / 16) + (U8(16 * a) + b / 256 % 16) / 16 == a % 0x1000
    ensures (U8(16 * a) + b / 256 % 16) % 16 * 256 + U8(b) == b % 0x1000
  {
    NibbleShift(a);
    assert (U8(16 * a) + b / 256 % 16) / 16 == a % 16 && (U8(16 * a) + b / 256 % 16) % 16 == b / 256 % 16;
  }

  lemma NibbleShift(a: int)
    ensures U8(16 * a) == 16 * (a % 16)
  {
  }

  /** The list 0, 1, .., n - 1. */
  ghost predicate InOrder(order: seq<nat>, n: nat) {
    |order| == n && forall i | 0 <= i < n :: order[i] == i
  }

  /** Two 12-bit taps into three bytes. */
  method PackPair(packed: array<nat>, at: nat, a: int, b: int)
    requires packed.Length == 20 && at + 2 < 20
    modifies packed
    ensures 16 * packed[at] + packed[at + 1] / 16 == a % 0x1000
    ensures packed[at + 1] % 16 * 256 + packed[at + 2] == b % 0x1000
    ensures forall i | 0 <= i < 20 :: if at <= i < at + 3 then packed[i] < 256 else packed[i] == old(packed[i])
  {
    packed[at] := U8(a / 16);
    packed[at + 1] := U8(16 * a) + b / 256 % 16;  // the low nibble of a << 4 is clear, so the or is a sum
    packed[at + 2] := U8(b);
    PairBytes(a, b);
    NibbleShift(a);
  }

  /** The two packing loops; `order` lists the bytes as they are written, each exactly once. */
  method PackKernel(kernel: seq<int>) returns (packed: array<nat>, ghost order: seq<nat>)
    requires |kernel| == 16
    ensures fresh(packed) && packed.Length == 20 && Holds(packed[..], kernel, 16)
    ensures forall i | 0 <= i < 20 :: packed[i] < 256
    ensures InOrder(order, 20)
  {
    packed := new nat[20](_ => 0);
    order := [];
    for k := 0 to 8
      invariant Holds(packed[..], kernel, k) && InOrder(order, k)
      invariant forall i | 0 <= i < 20 :: packed[i] < 256
    {
      packed[k] := U8(kernel[k]);
      order := order + [k];
    }
    var k := 0;
    while k < 8
      invariant k in {0, 2, 4, 6, 8} && Holds(packed[..], kernel, 8 + k) && InOrder(order, 8 + k * 3 / 2)
      invariant forall i | 0 <= i < 20 :: packed[i] < 256
    {
      var at := 8 + k * 3 / 2;
      ghost var before := packed[..];
      PackPair(packed, at, kernel[8 + k], kernel[8 + k + 1]);
      order := order + [at, at + 1, at + 2];
      TripleAdds(before, packed[..], kernel, k);
      k := k + 2;
    }
  }

  lemma TripleAdds(before: seq<nat>, after: seq<nat>, kernel: seq<int>, k: nat)
    requires |before| == |after| == 20 && |kernel| == 16 && k in {0, 2, 4, 6} && Holds(before, kernel, 8 + k)
    requires forall i | 0 <= i < 8 + k * 3 / 2 :: after[i] == before[i]
    requires var at := 8 + k * 3 / 2;
             && 16 * after[at] + after[at + 1] / 16 == kernel[8 + k] % 0x1000
             && after[at + 1] % 16 * 256 + after[at + 2] == kernel[9 + k] % 0x1000
    ensures Holds(after, kernel, 10 + k)
  {
    forall j | 0 <= j < 10 + k
      ensures RawTap(after, j) == kernel[j] % Width(j)
    {
      if j < 8 + k {
        assert RawTap(before, j) == kernel[j] % Width(j);
      }
    }
  }
}
