/** R820T frequency synthesis: candidates, spur avoidance, and the register words of the chosen one. */
module Synthesizer {
  import opened Words

  const VCO_FLOOR_KHZ: nat := 1770000
  const VCO_CEIL_KHZ: nat := 3540000
  const MAX_CANDIDATES: nat := 6

  /** The crystal every supported board carries, in kHz. */
  const REF_KHZ: nat := 28800

  datatype PllSolution = PllSolution(
    order: nat,
    vcoHz: nat,
    n: nat,
    frac: nat,
    denom: nat,
    fractional: bool,
    inRange: bool,
    quality: int)

  /** Five register bytes, as numbers. */
  datatype PllEncoding = PllEncoding(div: nat, niSi: nat, mode: nat, sdmHi: nat, sdmLo: nat)

  /** 1 << order. */
  function Divisor(order: nat): (d: nat)
    ensures d >= 1
  {
    if order == 0 then 1 else 2 * Divisor(order - 1)
  }

  predicate InWindow(target: nat, order: nat) {
    VCO_FLOOR_KHZ <= target * Divisor(order) < VCO_CEIL_KHZ
  }

  // ---- Stage A: candidates ----

  /** sol splits the VCO frequency of this divider order exactly into whole and fractional reference steps. */
  ghost predicate Solves(sol: PllSolution, target: nat, ref: nat) {
    && 1 <= sol.order <= 6 && InWindow(target, sol.order)
    && 2 * ref * sol.n + sol.frac == target * Divisor(sol.order)
    && sol.frac < sol.denom == 2 * ref
    && sol.vcoHz == 1000 * (target * Divisor(sol.order))
    && (sol.fractional <==> sol.frac != 0) && sol.inRange
    && sol.quality == 100 - 10 * sol.order
  }

  lemma Divisors()
    ensures Divisor(1) == 2 && Divisor(2) == 4 && Divisor(3) == 8 && Divisor(4) == 16 && Divisor(5) == 32 && Divisor(6) == 64
  {
    assert Divisor(3) == 8;
    assert Divisor(5) == 32;
  }

  /** The window is one octave, open above: at most one divider order hits it. */
  lemma OneOrder(target: nat, a: nat, b: nat)
    requires 1 <= a < b <= 6 && InWindow(target, a)
    ensures !InWindow(target, b)
  {
    Divisors();
  }

  /** The lowest order whose VCO frequency reaches the window's floor. */
  function OrderFor(target: nat): nat {
    if target >= 885000 then 1 else if target >= 442500 then 2 else if target >= 221250 then 3
    else if target >= 110625 then 4 else if target >= 55313 then 5 else 6
  }

  predicate Tunable(target: nat) {
    27657 <= target < 1770000
  }

  lemma OrderForHits(target: nat)
    requires Tunable(target)
    ensures InWindow(target, OrderFor(target))
    ensures forall order | 1 <= order <= 6 && InWindow(target, order) :: order == OrderFor(target)
  {
    Divisors();
    forall order | 1 <= order <= 6 && InWindow(target, order)
      ensures order == OrderFor(target)
    {
      if order < OrderFor(target) {
        OneOrder(target, order, OrderFor(target));
      } else if order > OrderFor(target) {
        OneOrder(target, OrderFor(target), order);
      }
    }
  }

  /** The orders 1 to 6 together cover these targets and no others. */
  lemma Coverage(target: nat)
    ensures (exists order :: 1 <= order <= 6 && InWindow(target, order)) <==> Tunable(target)
  {
    Divisors();
    if Tunable(target) {
      assert InWindow(target, OrderFor(target));
    }
  }

  /**
   What the loop stores for a VCO frequency in the window. The step is a 32-bit product; where
   it is 0 the code would divide by it, and no caller below gets there.
   */
  function Candidate(order: nat, vco: nat, ref: nat): PllSolution {
    var step := U32(2 * ref);
    var n := if step == 0 then 0 else vco / step;
    var frac := U32(vco - 2 * ref * n);
    PllSolution(order, U32(vco * 1000), U32(n), frac, step, frac != 0, true, 100 - 10 * order)
  }

  lemma SplitVco(vco: nat, step: nat)
    requires step > 0
    ensures 0 <= vco / step <= vco && 0 <= vco - step * (vco / step) < step
  {
    var q, r := vco / step, vco % step;
    assert vco == step * q + r && 0 <= r < step;
    if q < 0 {
      Times(step, q, -1);
    } else {
      Times(q, 1, step);
    }
  }

  lemma CandidateSolves(target: nat, order: nat, ref: nat)
    requires 1 <= order <= 6 && InWindow(target, order) && 0 < ref < 0x8000_0000
    ensures Solves(Candidate(order, target * Divisor(order), ref), target, ref)
  {
    var vco := target * Divisor(order);
    SmallNumbersStay(2 * ref);
    SplitVco(vco, 2 * ref);
    SmallNumbersStay(1000 * vco);
    SmallNumbersStay(vco / (2 * ref));
    SmallNumbersStay(vco - 2 * ref * (vco / (2 * ref)));
  }

  method EnumerateCandidates(target: nat, ref: nat, candidates: array<PllSolution>) returns (count: nat)
    requires candidates.Length == MAX_CANDIDATES && (Tunable(target) ==> U32(2 * ref) != 0)
    modifies candidates
    ensures count <= 1
    ensures count == 1 <==> Tunable(target)
    ensures count == 1 && 0 < ref < 0x8000_0000 ==> Solves(candidates[0], target, ref)
    ensures count == 1 ==> candidates[0] == Candidate(OrderFor(target), target * Divisor(OrderFor(target)), ref)
  {
    count := 0;
    Coverage(target);
    for order := 1 to 7
      invariant count <= 1
      invariant count == 0 ==> forall o | 1 <= o < order :: !InWindow(target, o)
      invariant count == 1 ==> exists o :: 1 <= o < order && InWindow(target, o)
      invariant count == 1 ==> candidates[0] == Candidate(OrderFor(target), target * Divisor(OrderFor(target)), ref)
    {
      var vco := target * Divisor(order);
      if VCO_FLOOR_KHZ <= vco < VCO_CEIL_KHZ {
        assert InWindow(target, order);
        OrderForHits(target);
        candidates[count] := Candidate(order, vco, ref);
        count := count + 1;
        if count >= MAX_CANDIDATES {
          break;
        }
      }
    }
    if count == 1 && 0 < ref < 0x8000_0000 {
      OrderForHits(target);
      CandidateSolves(target, OrderFor(target), ref);
    }
  }

  // ---- Stage B: spur avoidance and ranking ----

  function ZoneNear(ref: nat): nat { ref / 64 }

  function ZoneFar(ref: nat): nat { U32(ref * 127) / 64 }

  function ZoneBelow(ref: nat): nat { U32(ref * 127) / 128 }

  function ZoneAbove(ref: nat): nat { U32(ref * 129) / 128 }

  /** The (n, frac) a candidate is moved to. */
  function Quantise(n: nat, frac: nat, ref: nat): (nat, nat) {
    if frac < ZoneNear(ref) then (n, 0)
    else if frac > ZoneFar(ref) then (n + 1, 0)
    else if ZoneBelow(ref) < frac < ref then (n, ZoneBelow(ref))
    else if ref < frac < ZoneAbove(ref) then (n, ZoneAbove(ref))
    else (n, frac)
  }

  function Normalize(sol: PllSolution, ref: nat): PllSolution {
    var (n, frac) := Quantise(sol.n, sol.frac, ref);
    sol.(n := n, frac := frac, fractional := frac != 0, quality := if frac == 0 then sol.quality + 20 else sol.quality)
  }

  /** What normalising makes of a solution: a quantised step count and fraction, and 20 points for an integer one. */
  ghost predicate Normalized(sol: PllSolution, out: PllSolution, ref: nat) {
    && (out.n, out.frac) == Quantise(sol.n, sol.frac, ref)
    && (out.fractional <==> out.frac != 0)
    && out.quality == sol.quality + (if out.frac == 0 then 20 else 0)
    && (out.order, out.vcoHz, out.denom, out.inRange) == (sol.order, sol.vcoHz, sol.denom, sol.inRange)
  }

  /** A synthesised frequency in kHz. */
  function Khz(n: nat, frac: nat, ref: nat): nat {
    2 * ref * n + frac
  }

  /** References for which the 32-bit zone products do not wrap. */
  predicate ZonesFit(ref: nat) {
    0 < ref && ref * 129 < 0x1_0000_0000
  }

  /** The zone edges, without their 32-bit products. */
  lemma ZoneEdges(ref: nat)
    requires ZonesFit(ref)
    ensures 64 * ZoneNear(ref) <= ref < 64 * ZoneNear(ref) + 64
    ensures 64 * ZoneFar(ref) <= 127 * ref < 64 * ZoneFar(ref) + 64
    ensures 128 * ZoneBelow(ref) <= 127 * ref < 128 * ZoneBelow(ref) + 128
    ensures 128 * ZoneAbove(ref) <= 129 * ref < 128 * ZoneAbove(ref) + 128
  {
    SmallNumbersStay(ref * 127);
    SmallNumbersStay(ref * 129);
  }

  lemma QuantiseIsIdempotent(n: nat, frac: nat, ref: nat)
    requires ZonesFit(ref)
    ensures var (m, f) := Quantise(n, frac, ref); Quantise(m, f, ref) == (m, f)
  {
    ZoneEdges(ref);
  }

  /**
   Neither open zone around a multiple of the reference survives, no fraction is moved onto the
   reference or across it, and the far end of the range goes on to the next step.
   */
  lemma QuantiseLeavesZones(n: nat, frac: nat, ref: nat)
    requires ZonesFit(ref) && frac < 2 * ref
    ensures var f := Quantise(n, frac, ref).1;
            || f == 0 || (f == ref && frac == ref)
            || ZoneNear(ref) <= f <= ZoneBelow(ref) || ZoneAbove(ref) <= f <= ZoneFar(ref)
    ensures var (m, f) := Quantise(n, frac, ref);
            && (frac < ref ==> m == n && f < ref)
            && (frac > ref ==> (m == n && f > ref) || (m == n + 1 && f == 0))
  {
    ZoneEdges(ref);
  }

  /** Every case in whole numbers: which fractions move, and where to. */
  lemma QuantiseMeaning(n: nat, frac: nat, ref: nat)
    requires ZonesFit(ref) && frac < 2 * ref
    ensures var (m, f) := Quantise(n, frac, ref);
            if 64 * frac + 64 <= ref then m == n && f == 0
            else if 64 * frac > 127 * ref then m == n + 1 && f == 0
            else if 127 * ref < 128 * frac && frac < ref then m == n && 128 * f <= 127 * ref < 128 * f + 128
            else if ref < frac && 128 * frac + 128 <= 129 * ref then m == n && 128 * f <= 129 * ref < 128 * f + 128
            else m == n && f == frac
  {
    ZoneEdges(ref);
  }

  /** Where a fraction ends up, counted from the multiple below it: at that multiple, at the next, or in between. */
  function Snap(frac: nat, ref: nat): nat {
    if frac < ZoneNear(ref) then 0
    else if frac > ZoneFar(ref) then 2 * ref
    else if ZoneBelow(ref) < frac < ref then ZoneBelow(ref)
    else if ref < frac < ZoneAbove(ref) then ZoneAbove(ref)
    else frac
  }

  lemma QuantiseSnaps(n: nat, frac: nat, ref: nat)
    ensures var (m, f) := Quantise(n, frac, ref);
            Khz(m, f, ref) == 2 * ref * n + Snap(frac, ref)
  {
    assert 2 * ref * (n + 1) == 2 * ref * n + 2 * ref;
  }

  lemma SnapMovesLittle(frac: nat, ref: nat)
    requires ZonesFit(ref) && frac < 2 * ref
    ensures Snap(frac, ref) <= 2 * ref && 64 * Snap(frac, ref) < 64 * frac + ref && 64 * frac < 64 * Snap(frac, ref) + ref
  {
    ZoneEdges(ref);
  }

  lemma SnapIsMonotone(frac: nat, frac': nat, ref: nat)
    requires ZonesFit(ref) && frac <= frac' < 2 * ref
    ensures Snap(frac, ref) <= Snap(frac', ref)
  {
    ZoneEdges(ref);
  }

  /** The move is shorter than a 64th of the reference. */
  lemma QuantiseMovesLittle(n: nat, frac: nat, ref: nat)
    requires ZonesFit(ref) && frac < 2 * ref
    ensures var (m, f) := Quantise(n, frac, ref);
            var (before, after) := (Khz(n, frac, ref), Khz(m, f, ref));
            64 * after < 64 * before + ref && 64 * before < 64 * after + ref
  {
    QuantiseSnaps(n, frac, ref);
    SnapMovesLittle(frac, ref);
  }

  lemma QuantiseIsMonotone(n: nat, frac: nat, m: nat, frac': nat, ref: nat)
    requires ZonesFit(ref) && frac < 2 * ref && frac' < 2 * ref
    requires Khz(n, frac, ref) <= Khz(m, frac', ref)
    ensures var a := Quantise(n, frac, ref); var b := Quantise(m, frac', ref);
            Khz(a.0, a.1, ref) <= Khz(b.0, b.1, ref)
  {
    QuantiseSnaps(n, frac, ref);
    QuantiseSnaps(m, frac', ref);
    SnapMovesLittle(frac, ref);
    if n > m {
      StepsOrder(ref, m + 1, n);
      assert false;
    } else if n < m {
      StepsOrder(ref, n + 1, m);
    } else {
      SnapIsMonotone(frac, frac', ref);
    }
  }

  lemma StepsOrder(ref: nat, a: nat, b: nat)
    requires a <= b
    ensures 2 * ref * a <= 2 * ref * b
    ensures a > 0 ==> 2 * ref * a == 2 * ref * (a - 1) + 2 * ref
  {
  }

  method NormalizeSpurAvoidance(candidates: array<PllSolution>, count: nat, ref: nat)
    requires count <= candidates.Length
    modifies candidates
    ensures forall i | 0 <= i < candidates.Length ::
              candidates[i] == if i < count then Normalize(old(candidates[i]), ref) else old(candidates[i])
    ensures forall i | 0 <= i < count :: Normalized(old(candidates[i]), candidates[i], ref)
  {
    for i := 0 to count
      invariant forall k | 0 <= k < candidates.Length ::
                  candidates[k] == if k < i then Normalize(old(candidates[k]), ref) else old(candidates[k])
    {
      var sol := candidates[i];
      var frac, n := sol.frac, sol.n;
      if frac < ZoneNear(ref) {
        frac := 0;
      } else if frac > ZoneFar(ref) {
        frac := 0;
        n := n + 1;
      } else if frac > ZoneBelow(ref) && frac < ref {
        frac := ZoneBelow(ref);
      } else if frac > ref && frac < ZoneAbove(ref) {
        frac := ZoneAbove(ref);
      }
      sol := sol.(n := n, frac := frac, fractional := frac != 0);
      if !sol.fractional {
        sol := sol.(quality := sol.quality + 20);
      }
      candidates[i] := sol;
    }
  }

  /** The first candidate of the highest quality. */
  method RankAndSelect(candidates: array<PllSolution>, count: nat) returns (best: Option<nat>)
    requires count <= candidates.Length
    ensures best.None? <==> count == 0
    ensures best.Some? ==>
              && best.value < count
              && (forall i | 0 <= i < count :: candidates[i].quality <= candidates[best.value].quality)
              && (forall i | 0 <= i < best.value :: candidates[i].quality < candidates[best.value].quality)
  {
    if count == 0 {
      return None;
    }
    var b := 0;
    for i := 1 to count
      invariant b < i
      invariant forall k | 0 <= k < i :: candidates[k].quality <= candidates[b].quality
      invariant forall k | 0 <= k < b :: candidates[k].quality < candidates[b].quality
    {
      if candidates[i].quality > candidates[b].quality {
        b := i;
      }
    }
    best := Some(b);
  }

  // ---- Stage C: register words ----

  datatype SdmResult = Done(acc: nat, residual: nat, passes: nat) | DivideByZero

  /** What each weight 2^k takes off the residual, k from 1 to 15. */
  function Shares(ref: nat): (s: seq<nat>)
    ensures |s| == 16
  {
    seq(16, k requires 0 <= k < 16 => U32(2 * ref) / Divisor(k))
  }

  /** The accumulator bits that stand for the weights. */
  function Bits(): (s: seq<nat>)
    ensures |s| == 16
  {
    seq(16, k requires 0 <= k < 16 => if k == 0 then 0 else 0x8000 / (Divisor(k) / 2))
  }

  function WeightAt(k: nat): nat
    requires 1 <= k <= 15
  {
    [2, 4, 8, 16, 32, 64, 128, 256, 512, 1024, 2048, 4096, 8192, 16384, 32768][k - 1]
  }

  lemma {:induction false} DivisorAt(k: nat)
    requires 1 <= k <= 15
    ensures Divisor(k) == WeightAt(k)
  {
    if k == 1 {
      assert Divisor(1) == 2;
    } else {
      DivisorAt(k - 1);
    }
  }

  lemma BitEntry(k: nat)
    requires 1 <= k <= 15
    ensures WeightAt(k) >= 2 && 0x8000 / (WeightAt(k) / 2) == WeightAt(16 - k)
  {
    if k == 1 {} else if k == 2 {} else if k == 3 {} else if k == 4 {} else if k == 5 {}
    else if k == 6 {} else if k == 7 {} else if k == 8 {} else if k == 9 {} else if k == 10 {}
    else if k == 11 {} else if k == 12 {} else if k == 13 {} else if k == 14 {} else {}
  }

  lemma BitAt(k: nat)
    requires 1 <= k <= 15
    ensures Bits()[k] == WeightAt(16 - k)
  {
    DivisorAt(k);
    BitEntry(k);
  }

  /** 0x8000, 0x4000, .., 2 in places 1 to 15. */
  ghost predicate Ladder(bits: seq<nat>) {
    |bits| == 16 && bits[1] == 0x8000 && bits[15] == 2 && forall j, k | 1 <= j < k == j + 1 < 16 :: bits[j] == 2 * bits[k]
  }

  lemma BitsAreALadder()
    ensures Ladder(Bits())
  {
    forall j, k | 1 <= j < k == j + 1 < 16
      ensures Bits()[j] == 2 * Bits()[k]
    {
      BitAt(j);
      BitAt(k);
    }
    BitAt(1);
    BitAt(15);
  }

  /** The loop's weights are 2^1 to 2^15; one more shift empties the uint16_t. */
  lemma Weights(k: nat)
    requires 1 <= k <= 15
    ensures 2 <= Divisor(k) <= 0x8000 && (Divisor(k) >= 0x8000 <==> k == 15)
    ensures U16(2 * Divisor(k)) == if k == 15 then 0 else Divisor(k + 1)
  {
    DivisorAt(k);
  }

  /** A result one pass later. */
  function Later(r: SdmResult): SdmResult {
    match r
    case Done(x, y, p) => Done(x, y, p + 1)
    case DivideByZero => DivideByZero
  }

  /**
   The sigma-delta loop from weight 2^k on, its accumulator not yet cut to 16 bits; with no
   weight left, the shifted-out weight is divided by.
   */
  function Sdm(residual: nat, k: nat, acc: nat, shares: seq<nat>, bits: seq<nat>): SdmResult
    requires 1 <= k <= 16 && |shares| == |bits| == 16
    decreases 16 - k, residual
  {
    if residual <= 1 then Done(acc, residual, 0)
    else if k == 16 then DivideByZero
    else if residual <= shares[k] then Later(Sdm(residual, k + 1, acc, shares, bits))
    else if k == 15 then Done(acc + bits[k], residual - shares[k], 1)
    else Later(Sdm(residual - shares[k], k + 1, acc + bits[k], shares, bits))
  }

  /** The whole loop. */
  function SdmLoop(frac: nat, ref: nat): SdmResult {
    Sdm(frac, 1, 0, Shares(ref), Bits())
  }

  /** The accumulator as the 16-bit word it is packed from. */
  function Word(r: SdmResult): (w: nat)
    ensures w < 0x1_0000
  {
    if r.Done? then U16(r.acc) else 0
  }

  /** The 16-bit word the loop leaves. */
  function SdmWord(frac: nat, ref: nat): nat {
    Word(SdmLoop(frac, ref))
  }

  lemma WordOf(r: SdmResult)
    requires r.Done? && r.acc < 0x1_0000
    ensures Word(r) == r.acc
  {
  }

  /** From here on the loop ends, with this word. */
  ghost predicate Leads(residual: nat, k: nat, acc: nat, shares: seq<nat>, bits: seq<nat>, goal: nat)
    requires 1 <= k <= 15 && |shares| == |bits| == 16
  {
    Sdm(residual, k, acc, shares, bits).Done? && Word(Sdm(residual, k, acc, shares, bits)) == goal
  }

  /** One pass of the loop, seen from outside. */
  lemma SdmPass(residual: nat, k: nat, acc: nat, shares: seq<nat>, bits: seq<nat>, goal: nat)
    requires 1 <= k <= 15 && |shares| == |bits| == 16 && residual > 1 && Leads(residual, k, acc, shares, bits, goal)
    ensures k == 15 ==> residual > shares[k]
    ensures if residual <= shares[k] then Leads(residual, k + 1, acc, shares, bits, goal)
            else if k == 15 then U16(acc + bits[k]) == goal
            else Leads(residual - shares[k], k + 1, acc + bits[k], shares, bits, goal)
  {
    assert Sdm(residual, 16, acc, shares, bits) == DivideByZero;
  }

  method PackSdm(frac: nat, ref: nat) returns (acc: nat)
    requires SdmLoop(frac, ref).Done?
    ensures acc == SdmWord(frac, ref)
  {
    acc := RunSdm(frac, ref, Shares(ref), Bits());
  }

  /** The loop itself, for shares and bits laid out as the specification has them. */
  method RunSdm(frac: nat, ref: nat, ghost shares: seq<nat>, ghost bits: seq<nat>) returns (acc: nat)
    requires |shares| == |bits| == 16 && Sdm(frac, 1, 0, shares, bits).Done?
    requires forall k | 1 <= k <= 15 ::
               Divisor(k) >= 2 && shares[k] == U32(2 * ref) / Divisor(k) && bits[k] == 0x8000 / (Divisor(k) / 2)
    ensures acc == Word(Sdm(frac, 1, 0, shares, bits))
  {
    ghost var k, sum: nat, goal := 1, 0, Word(Sdm(frac, 1, 0, shares, bits));
    var weight: nat, residual: nat := 2, frac;
    acc := 0;
    assert Divisor(k) == 2;
    while residual > 1
      invariant 1 <= k <= 15 && weight == Divisor(k) && acc == U16(sum)
      invariant Leads(residual, k, sum, shares, bits, goal)
      decreases 16 - k
    {
      Weights(k);
      SdmPass(residual, k, sum, shares, bits, goal);
      if residual > U32(2 * ref) / weight {
        U16Left(sum, 0x8000 / (weight / 2));
        acc, sum := U16(acc + 0x8000 / (weight / 2)), sum + 0x8000 / (weight / 2);
        residual := residual - U32(2 * ref) / weight;
        if weight >= 0x8000 {
          return;
        }
      }
      weight := U16(2 * weight);
      k := k + 1;
    }
  }

  lemma {:induction false} SdmPasses(residual: nat, k: nat, acc: nat, shares: seq<nat>, bits: seq<nat>)
    requires 1 <= k <= 16 && |shares| == |bits| == 16
    ensures var r := Sdm(residual, k, acc, shares, bits); r.Done? ==> r.passes <= 16 - k
    decreases 16 - k
  {
    if residual > 1 && k < 15 {
      if residual <= shares[k] {
        SdmPasses(residual, k + 1, acc, shares, bits);
      } else {
        SdmPasses(residual - shares[k], k + 1, acc + bits[k], shares, bits);
      }
    }
  }

  lemma {:induction false} LastShareFires(residual: nat, k: nat, acc: nat, shares: seq<nat>, bits: seq<nat>)
    requires 1 <= k <= 15 && |shares| == |bits| == 16 && shares[15] <= 1
    ensures Sdm(residual, k, acc, shares, bits).Done?
    decreases 16 - k
  {
    if residual > 1 && k < 15 {
      if residual <= shares[k] {
        LastShareFires(residual, k + 1, acc, shares, bits);
      } else {
        LastShareFires(residual - shares[k], k + 1, acc + bits[k], shares, bits);
      }
    }
  }

  /** A residual of two or more that no share is below is never taken, and the shifted-out weight comes round. */
  lemma {:induction false} StuckFails(residual: nat, k: nat, acc: nat, shares: seq<nat>, bits: seq<nat>)
    requires 1 <= k <= 16 && |shares| == |bits| == 16 && 2 <= residual && forall j | k <= j <= 15 :: residual <= shares[j]
    ensures Sdm(residual, k, acc, shares, bits) == DivideByZero
    decreases 16 - k
  {
    if k < 16 {
      StuckFails(residual, k + 1, acc, shares, bits);
    }
  }

  lemma LastShare(ref: nat)
    requires ref < 0x8000
    ensures Shares(ref)[15] <= 1
  {
    DivisorAt(15);
    SmallNumbersStay(2 * ref);
  }

  lemma ShareAtLeastTwo(ref: nat, k: nat)
    requires 0x8000 <= ref < 0x8000_0000 && 1 <= k <= 15
    ensures Shares(ref)[k] >= 2
  {
    Weights(k);
    SmallNumbersStay(2 * ref);
    QuotientAtLeast(2 * ref, Divisor(k), 2);
  }

  /** With a reference below 32768 kHz the last weight always fires, so the loop ends, within 15 passes, before it shifts out. */
  lemma SdmEnds(frac: nat, ref: nat)
    requires ref < 0x8000
    ensures SdmLoop(frac, ref).Done? && SdmLoop(frac, ref).passes <= 15
  {
    LastShare(ref);
    LastShareFires(frac, 1, 0, Shares(ref), Bits());
    SdmPasses(frac, 1, 0, Shares(ref), Bits());
  }

  lemma {:induction false} SdmResidue(residual: nat, k: nat, acc: nat, shares: seq<nat>, bits: seq<nat>)
    requires 1 <= k <= 16 && |shares| == |bits| == 16
    ensures var r := Sdm(residual, k, acc, shares, bits);
            r.Done? ==> r.residual <= residual && (residual >= 1 ==> r.residual >= 1) && (r.residual > 1 ==> k + r.passes == 16)
    decreases 16 - k
  {
    if residual > 1 && k < 15 {
      if residual <= shares[k] {
        SdmResidue(residual, k + 1, acc, shares, bits);
      } else {
        SdmResidue(residual - shares[k], k + 1, acc + bits[k], shares, bits);
      }
    } else if residual > 1 && k == 15 {
      assert Sdm(residual, 16, acc, shares, bits) == DivideByZero;
    }
  }

  /** The loop never takes all of a fraction, and stops before its last weight only when a single kHz, or nothing, is left. */
  lemma SdmLeavesSomething(frac: nat, ref: nat)
    requires ref < 0x8000
    ensures var r := SdmLoop(frac, ref);
            r.Done? && r.residual <= frac && (frac >= 1 ==> r.residual >= 1) && (r.residual > 1 ==> r.passes == 15)
  {
    SdmEnds(frac, ref);
    SdmResidue(frac, 1, 0, Shares(ref), Bits());
  }

  /** The loop is free of division by zero for every fraction exactly when the reference is below 32768 kHz. */
  lemma SdmIsSafeIff(ref: nat)
    requires ref < 0x8000_0000
    ensures (forall frac: nat :: SdmLoop(frac, ref).Done? && SdmLoop(frac, ref).passes <= 15) <==> ref < 0x8000
  {
    if ref < 0x8000 {
      forall frac: nat { SdmEnds(frac, ref); }
    } else {
      TwoDividesByZero(ref);
    }
  }

  lemma TwoDividesByZero(ref: nat)
    requires 0x8000 <= ref < 0x8000_0000
    ensures SdmLoop(2, ref) == DivideByZero
  {
    forall k | 1 <= k <= 15 { ShareAtLeastTwo(ref, k); }
    StuckFails(2, 1, 0, Shares(ref), Bits());
  }

  // ---- How well the word stands for the fraction ----

  /** What the loop leaves of a residual, if the last share fires. */
  function Left(residual: nat, k: nat, shares: seq<nat>): (r: nat)
    requires 1 <= k <= 15 && |shares| == 16
    ensures r <= residual
    decreases 16 - k, residual
  {
    if residual <= 1 then residual
    else if residual <= shares[k] then if k == 15 then residual else Left(residual, k + 1, shares)
    else if k == 15 then residual - shares[k]
    else Left(residual - shares[k], k + 1, shares)
  }

  /** The sum of w over the weights the loop takes. */
  function Taken(residual: nat, k: nat, shares: seq<nat>, w: seq<nat>): nat
    requires 1 <= k <= 15 && |shares| == |w| == 16
    decreases 16 - k, residual
  {
    if residual <= 1 then 0
    else if residual <= shares[k] then if k == 15 then 0 else Taken(residual, k + 1, shares, w)
    else if k == 15 then w[k]
    else w[k] + Taken(residual - shares[k], k + 1, shares, w)
  }

  /** A weight with this share takes a residual of at most left to one of at most left'. */
  predicate StepLeaves(share: nat, left: nat, left': nat) {
    share <= left' && left <= left' + share
  }

  /** A bit is worth its share, and a drift besides that the later bits leave room for. */
  predicate StepGains(worth: nat, share: nat, drift: nat, drift': nat) {
    0x1_0000 * share <= worth && worth + drift' <= 0x1_0000 * share + drift
  }

  /** Bounds on the residual before each weight, and on the drift from there on. */
  ghost predicate BoundsLeft(shares: seq<nat>, left: seq<nat>) {
    && |shares| == 16 && |left| == 17 && 1 <= left[16] && shares[15] <= 1
    && forall j, k | 1 <= j < k == j + 1 <= 16 :: StepLeaves(shares[j], left[j], left[k])
  }

  ghost predicate BoundsDrift(shares: seq<nat>, worth: seq<nat>, drift: seq<nat>) {
    && |shares| == |worth| == 16 && |drift| == 17
    && forall j, k | 1 <= j < k == j + 1 <= 16 :: StepGains(worth[j], shares[j], drift[j], drift[k])
  }

  /** No more is left than the last weight can leave. */
  lemma {:induction false} LeftShrinks(residual: nat, k: nat, shares: seq<nat>, left: seq<nat>)
    requires BoundsLeft(shares, left) && 1 <= k <= 15 && residual <= left[k]
    ensures Left(residual, k, shares) <= left[16]
    decreases 16 - k
  {
    if residual > 1 {
      assert StepLeaves(shares[k], left[k], left[k + 1]);
      if k == 15 {
        assert residual > shares[k];
      } else if residual <= shares[k] {
        LeftShrinks(residual, k + 1, shares, left);
      } else {
        LeftShrinks(residual - shares[k], k + 1, shares, left);
      }
    }
  }

  /** What is taken is worth the residual gone, and no more than the drift besides. */
  predicate Within(taken: nat, gone: nat, drift: nat) {
    0x1_0000 * gone <= taken <= 0x1_0000 * gone + drift
  }

  lemma {:induction false} TakenDrifts(residual: nat, k: nat, shares: seq<nat>, worth: seq<nat>, drift: seq<nat>)
    requires BoundsDrift(shares, worth, drift) && 1 <= k <= 15
    ensures Within(Taken(residual, k, shares, worth), residual - Left(residual, k, shares), drift[k])
    decreases 16 - k
  {
    if residual > 1 {
      assert StepGains(worth[k], shares[k], drift[k], drift[k + 1]);
      if k < 15 {
        if residual <= shares[k] {
          TakenDrifts(residual, k + 1, shares, worth, drift);
        } else {
          TakenDrifts(residual - shares[k], k + 1, shares, worth, drift);
        }
      }
    }
  }

  /** What bits are worth together is what they are worth one by one. */
  lemma {:induction false} TakenScales(residual: nat, k: nat, shares: seq<nat>, bits: seq<nat>, worth: seq<nat>, step: nat)
    requires 1 <= k <= 15 && |shares| == |bits| == |worth| == 16 && forall j | 1 <= j <= 15 :: worth[j] == step * bits[j]
    ensures Taken(residual, k, shares, worth) == step * Taken(residual, k, shares, bits)
    decreases 16 - k
  {
    if residual > 1 {
      if residual <= shares[k] {
        if k < 15 {
          TakenScales(residual, k + 1, shares, bits, worth, step);
        }
      } else if k < 15 {
        TakenScales(residual - shares[k], k + 1, shares, bits, worth, step);
        Distribute(step, bits[k], Taken(residual - shares[k], k + 1, shares, bits));
      }
    }
  }

  lemma Distribute(step: nat, a: nat, b: nat)
    ensures step * (a + b) == step * a + step * b
  {
  }

  lemma {:induction false} LadderIsEven(bits: seq<nat>, k: nat)
    requires Ladder(bits) && 1 <= k <= 15
    ensures bits[k] >= 2
    decreases 15 - k
  {
    if k < 15 {
      LadderIsEven(bits, k + 1);
    }
  }

  /** The residual the loop ends with, whatever the accumulator. */
  lemma {:induction false} SdmLeaves(residual: nat, k: nat, acc: nat, shares: seq<nat>, bits: seq<nat>)
    requires 1 <= k <= 15 && |shares| == |bits| == 16 && shares[15] <= 1
    ensures Leaves(Sdm(residual, k, acc, shares, bits), Left(residual, k, shares))
    decreases 16 - k
  {
    if residual > 1 && k < 15 {
      if residual <= shares[k] {
        SdmLeaves(residual, k + 1, acc, shares, bits);
      } else {
        SdmLeaves(residual - shares[k], k + 1, acc + bits[k], shares, bits);
      }
    }
  }

  predicate Leaves(r: SdmResult, left: nat) {
    r.Done? && r.residual == left
  }

  predicate Holds(r: SdmResult, acc: nat) {
    r.Done? ==> r.acc == acc
  }

  /** And the accumulator it ends with: the bits it takes, added up. */
  lemma {:induction false} SdmTakes(residual: nat, k: nat, acc: nat, shares: seq<nat>, bits: seq<nat>)
    requires 1 <= k <= 15 && |shares| == |bits| == 16
    ensures Holds(Sdm(residual, k, acc, shares, bits), acc + Taken(residual, k, shares, bits))
    decreases 16 - k
  {
    if residual > 1 && k < 15 {
      if residual <= shares[k] {
        SdmTakes(residual, k + 1, acc, shares, bits);
      } else {
        SdmTakes(residual - shares[k], k + 1, acc + bits[k], shares, bits);
      }
    }
  }

  /** Together, the bits taken are less than two of the first. */
  lemma {:induction false} TakenFits(residual: nat, k: nat, shares: seq<nat>, bits: seq<nat>)
    requires 1 <= k <= 15 && |shares| == 16 && Ladder(bits)
    ensures Taken(residual, k, shares, bits) + 2 <= 2 * bits[k]
    decreases 16 - k
  {
    LadderIsEven(bits, k);
    if residual > 1 && k < 15 {
      assert bits[k] == 2 * bits[k + 1];
      if residual <= shares[k] {
        TakenFits(residual, k + 1, shares, bits);
      } else {
        TakenFits(residual - shares[k], k + 1, shares, bits);
      }
    }
  }

  /** Each weight sets its own bit at most once, so whatever the reference the accumulator never wraps. */
  lemma SdmNeverWraps(frac: nat, ref: nat)
    requires SdmLoop(frac, ref).Done?
    ensures SdmLoop(frac, ref).acc <= 0xFFFE
  {
    BitsAreALadder();
    SdmTakes(frac, 1, 0, Shares(ref), Bits());
    TakenFits(frac, 1, Shares(ref), Bits());
  }

  function Product(a: nat, b: nat): (p: nat)
    ensures p == a * b
  {
    Times(a, 0, b);
    a * b
  }

  /** What each bit is worth in 1/65536 of a step. */
  function Worth(step: nat): (w: seq<nat>)
    ensures |w| == 16 && forall k | 0 <= k < 16 :: w[k] == step * Bits()[k]
  {
    seq(16, k requires 0 <= k < 16 => Product(step, Bits()[k]))
  }

  /** A drift of the loop, read as the error of the word. */
  lemma DriftOfWord(frac: nat, ref: nat, left: seq<nat>, drift: seq<nat>)
    requires ref < 0x8000 && BoundsLeft(Shares(ref), left) && BoundsDrift(Shares(ref), Worth(2 * ref), drift) && frac <= left[1]
    ensures SdmLoop(frac, ref).Done? && SdmLoop(frac, ref).residual <= left[16]
    ensures SdmWord(frac, ref) == SdmLoop(frac, ref).acc
    ensures -0x1_0000 * left[16] <= 2 * ref * SdmWord(frac, ref) - 0x1_0000 * frac <= drift[1]
  {
    var shares, bits, worth := Shares(ref), Bits(), Worth(2 * ref);
    LastShare(ref);
    BitsAreALadder();
    SdmLeaves(frac, 1, 0, shares, bits);
    SdmTakes(frac, 1, 0, shares, bits);
    SdmNeverWraps(frac, ref);
    LeftShrinks(frac, 1, shares, left);
    TakenDrifts(frac, 1, shares, worth, drift);
    TakenScales(frac, 1, shares, bits, worth, 2 * ref);
    WordOf(SdmLoop(frac, ref));
  }

  /** x >> k. */
  function Shr(x: nat, k: nat): nat {
    if k == 0 then x else Shr(x, k - 1) / 2
  }

  lemma Halves(x: nat, v: nat)
    requires 0 < v
    ensures x / (2 * v) == x / v / 2
  {
    Quotient(x, v);
    var p := x / v;
    HalfStep(x, v, p, p / 2);
    QuotientIs(x, 2 * v, p / 2);
  }

  lemma HalfStep(x: nat, v: nat, p: nat, h: nat)
    requires v * p <= x < v * p + v && 2 * h <= p <= 2 * h + 1
    ensures 2 * v * h <= x < 2 * v * h + 2 * v
  {
    if p == 2 * h {
      assert v * p == 2 * v * h;
    } else {
      assert v * p == 2 * v * h + v;
    }
  }

  lemma {:induction false} DivisionIsShift(x: nat, k: nat)
    ensures x / Divisor(k) == Shr(x, k)
  {
    if k > 0 {
      Halves(x, Divisor(k - 1));
      DivisionIsShift(x, k - 1);
    }
  }

  lemma ShareIsShift(ref: nat, k: nat)
    requires ref < 0x8000_0000 && k < 16
    ensures Shares(ref)[k] == Shr(2 * ref, k)
  {
    SmallNumbersStay(2 * ref);
    DivisionIsShift(2 * ref, k);
  }

  /** At 28,800 kHz: what a weight can leave at most, starting below two references. */
  function LeftAt(k: nat): nat {
    match k
    case 1 => 57599 case 2 => 28800 case 3 => 14400 case 4 => 7200
    case 5 => 3600 case 6 => 1800 case 7 => 900 case 8 => 450
    case 9 => 225 case 10 => 113 case 11 => 57 case 12 => 29
    case 13 => 15 case 14 => 8 case 15 => 5 case _ => 4
  }

  /** And 65536 times the kHz the remaining weights can overshoot their integer shares by. */
  function DriftAt(k: nat): nat {
    match k
    case 10 => 114176 case 11 => 97792 case 12 => 89600 case 13 => 85504
    case 14 => 83456 case 15 => 49664 case 16 => 0 case _ => 146944
  }

  /** 57600 / 2^k, rounded down. */
  function ShareAt(k: nat): nat
    requires 1 <= k <= 15
  {
    match k
    case 1 => 28800 case 2 => 14400 case 3 => 7200 case 4 => 3600
    case 5 => 1800 case 6 => 900 case 7 => 450 case 8 => 225
    case 9 => 112 case 10 => 56 case 11 => 28 case 12 => 14
    case 13 => 7 case 14 => 3 case _ => 1
  }

  lemma {:induction false} ShiftAt(k: nat)
    requires 1 <= k <= 15
    ensures Shr(57600, k) == ShareAt(k)
  {
    if k == 1 {
      assert Shr(57600, 0) == 57600;
    } else {
      ShiftAt(k - 1);
      assert ShareAt(k) == ShareAt(k - 1) / 2;
    }
  }

  lemma TableStep(k: nat)
    requires 1 <= k <= 15
    ensures StepLeaves(ShareAt(k), LeftAt(k), LeftAt(k + 1))
    ensures StepGains(57600 * WeightAt(16 - k), ShareAt(k), DriftAt(k), DriftAt(k + 1))
  {
    if k == 1 {} else if k == 2 {} else if k == 3 {} else if k == 4 {} else if k == 5 {}
    else if k == 6 {} else if k == 7 {} else if k == 8 {} else if k == 9 {} else if k == 10 {}
    else if k == 11 {} else if k == 12 {} else if k == 13 {} else if k == 14 {} else {}
  }

  lemma StepAtCrystal(ref: nat, k: nat)
    requires ref == REF_KHZ && 1 <= k <= 15
    ensures StepLeaves(Shares(ref)[k], LeftAt(k), LeftAt(k + 1))
    ensures StepGains(Worth(2 * ref)[k], Shares(ref)[k], DriftAt(k), DriftAt(k + 1))
  {
    ShareIsShift(ref, k);
    ShiftAt(k);
    BitAt(k);
    TableStep(k);
  }

  function LeftAtCrystal(): (s: seq<nat>)
    ensures |s| == 17 && forall k | 0 <= k < 17 :: s[k] == LeftAt(k)
  {
    seq(17, k requires 0 <= k < 17 => LeftAt(k))
  }

  function DriftAtCrystal(): (s: seq<nat>)
    ensures |s| == 17 && forall k | 0 <= k < 17 :: s[k] == DriftAt(k)
  {
    seq(17, k requires 0 <= k < 17 => DriftAt(k))
  }

  lemma CrystalTables(ref: nat)
    requires ref == REF_KHZ
    ensures BoundsLeft(Shares(ref), LeftAtCrystal()) && BoundsDrift(Shares(ref), Worth(2 * ref), DriftAtCrystal())
  {
    var left, drift := LeftAtCrystal(), DriftAtCrystal();
    forall k, k' | 1 <= k < k' == k + 1 <= 16
      ensures StepLeaves(Shares(ref)[k], left[k], left[k'])
    {
      StepAtCrystal(ref, k);
    }
    forall k, k' | 1 <= k < k' == k + 1 <= 16
      ensures StepGains(Worth(2 * ref)[k], Shares(ref)[k], drift[k], drift[k'])
    {
      StepAtCrystal(ref, k);
    }
    assert left[16] == LeftAt(16) == 4;
    LastShare(ref);
  }

  /** At 28,800 kHz the word stands for the fraction to within 4 kHz (and overshoots by less than 2.25). */
  lemma SdmAccuracy(frac: nat, ref: nat)
    requires ref == REF_KHZ && frac < 2 * ref
    ensures SdmLoop(frac, ref).Done? && SdmLoop(frac, ref).residual <= 4
    ensures SdmWord(frac, ref) == SdmLoop(frac, ref).acc
    ensures -4 * 0x1_0000 <= 2 * ref * SdmWord(frac, ref) - 0x1_0000 * frac <= 146944
  {
    var left, drift := LeftAtCrystal(), DriftAtCrystal();
    assert left[1] == LeftAt(1) == 57599 && left[16] == LeftAt(16) == 4 && drift[1] == DriftAt(1) == 146944;
    CrystalTables(ref);
    DriftOfWord(frac, ref, left, drift);
  }

  /** A bit stands for its share, and for less than one kHz more, in 1/65536 of the step. */
  lemma {:induction false} BitStandsForShare(step: nat, k: nat)
    requires k <= 16
    ensures 0 <= step * Divisor(16 - k) - 0x1_0000 * Shr(step, k) < 0x1_0000
  {
    if k == 0 {
      DivisorAt(15);
      assert Divisor(16) == 2 * Divisor(15);
    } else {
      BitStandsForShare(step, k - 1);
      HalvedGain(step, Divisor(16 - k), Shr(step, k - 1));
    }
  }

  lemma HalvedGain(step: nat, half: nat, share: nat)
    requires 0 <= step * (2 * half) - 0x1_0000 * share < 0x1_0000
    ensures 0 <= step * half - 0x1_0000 * (share / 2) < 0x1_0000
  {
    assert step * (2 * half) == 2 * (step * half);
  }

  /** Each weight leaves at most twice its share and one per weight seen, and overshoots by less than one. */
  lemma StepAtAnyReference(ref: nat, k: nat)
    requires ref < 0x8000 && 1 <= k <= 15
    ensures StepLeaves(Shares(ref)[k], 2 * Shr(2 * ref, k) + k, 2 * Shr(2 * ref, k + 1) + k + 1)
    ensures StepGains(Worth(2 * ref)[k], Shares(ref)[k], 0x1_0000 * (16 - k), 0x1_0000 * (15 - k))
  {
    ShareIsShift(ref, k);
    BitAt(k);
    DivisorAt(16 - k);
    BitStandsForShare(2 * ref, k);
    assert Shr(2 * ref, k + 1) == Shr(2 * ref, k) / 2;
  }

  function LeftAtAny(step: nat): (s: seq<nat>)
    ensures |s| == 17 && forall k | 0 <= k < 17 :: s[k] == 2 * Shr(step, k) + k
  {
    seq(17, k requires 0 <= k < 17 => 2 * Shr(step, k) + k)
  }

  function DriftAtAny(): (s: seq<nat>)
    ensures |s| == 17 && forall k | 0 <= k < 17 :: s[k] == 0x1_0000 * (16 - k)
  {
    seq(17, k requires 0 <= k < 17 => 0x1_0000 * (16 - k))
  }

  lemma EndsOfLeft(ref: nat)
    requires ref < 0x8000
    ensures LeftAtAny(2 * ref)[1] == 2 * ref + 1 && LeftAtAny(2 * ref)[16] == 16
  {
    BitStandsForShare(2 * ref, 16);
    assert Shr(2 * ref, 0) == 2 * ref && Shr(2 * ref, 1) == ref && Divisor(0) == 1;
  }

  /** At any reference below 32768 kHz the word stands for the fraction to within 16 kHz. */
  lemma SdmAccuracyAtAnyReference(frac: nat, ref: nat)
    requires ref < 0x8000 && frac < 2 * ref
    ensures SdmLoop(frac, ref).Done? && SdmLoop(frac, ref).residual <= 16
    ensures -16 * 0x1_0000 <= 2 * ref * SdmWord(frac, ref) - 0x1_0000 * frac <= 15 * 0x1_0000
  {
    var left, drift := LeftAtAny(2 * ref), DriftAtAny();
    forall k, k' | 1 <= k < k' == k + 1 <= 16
      ensures StepLeaves(Shares(ref)[k], left[k], left[k'])
      ensures StepGains(Worth(2 * ref)[k], Shares(ref)[k], drift[k], drift[k'])
    {
      StepAtAnyReference(ref, k);
    }
    EndsOfLeft(ref);
    LastShare(ref);
    DriftOfWord(frac, ref, left, drift);
  }

  /** ni | (uint8_t)(si << 6). */
  function JoinNiSi(ni: nat, si: nat): (r: nat)
    requires ni < 256 && si < 256
    ensures r < 256
  {
    ((ni as byte) | ((si as byte) << 6)) as nat
  }

  lemma JoinBits(b: byte, c: byte)
    requires b < 64 && c < 4
    ensures (b | (c << 6)) & 0x3F == b && (b | (c << 6)) >> 6 == c
  {
  }

  lemma BytesAreSplit(x: byte)
    ensures x as nat == 64 * ((x >> 6) as nat) + (x & 0x3F) as nat
  {
  }

  lemma SmallByte(b: byte)
    ensures b as nat < 64 ==> b < 64
    ensures b as nat < 4 ==> b < 4
  {
  }

  lemma JoinedFields(ni: nat, si: nat)
    requires ni < 64 && si < 4
    ensures JoinNiSi(ni, si) == ni + 64 * si
  {
    var b, c := ni as byte, si as byte;
    ByteBack(ni);
    ByteBack(si);
    SmallByte(b);
    SmallByte(c);
    JoinBits(b, c);
    BytesAreSplit(b | (c << 6));
  }

  /** NI in the low six bits, SI in the top two; the subtraction is on uint32_t. */
  function PackNiSi(n: nat): (b: nat)
    ensures b < 256
  {
    var ni := U8(U32(n - 13) / 4);
    var si := U8(n - 4 * ni - 13);
    JoinNiSi(ni, si)
  }

  function DecodeN(b: nat): nat
    requires b < 256
  {
    4 * (b % 64) + b / 64 + 13
  }

  lemma PackedFields(n: nat)
    requires 13 <= n <= 268
    ensures PackNiSi(n) == (n - 13) / 4 + 64 * ((n - 13) % 4)
  {
    var ni, si := (n - 13) / 4, (n - 13) % 4;
    SmallNumbersStay(n - 13);
    SmallNumbersStay(ni);
    assert n - 4 * ni - 13 == si;
    SmallNumbersStay(si);
    JoinedFields(ni, si);
  }

  /** The packed word gives n back exactly when n is in its range. */
  lemma NiSiRoundTrip(n: nat)
    requires n < 0x1_0000_0000
    ensures DecodeN(PackNiSi(n)) == n <==> 13 <= n <= 268
  {
    DecodedN(PackNiSi(n), 0, 0);
    if 13 <= n <= 268 {
      PackedFields(n);
      DecodedN(PackNiSi(n), (n - 13) / 4, (n - 13) % 4);
    }
  }

  lemma DecodedN(b: nat, ni: nat, si: nat)
    requires b < 256
    ensures 13 <= DecodeN(b) <= 268
    ensures ni < 64 && b == ni + 64 * si ==> DecodeN(b) == 4 * ni + si + 13
  {
  }

  function DivField(order: nat): (b: nat)
    requires 1 <= order
    ensures b < 256
  {
    U8((order - 1) * 32)
  }

  predicate EncodingOk(enc: PllEncoding) {
    enc.div < 256 && enc.niSi < 256 && enc.mode < 256 && enc.sdmHi < 256 && enc.sdmLo < 256
  }

  /** The register words of a solution. */
  function Encode(sol: PllSolution, ref: nat): (enc: PllEncoding)
    requires 1 <= sol.order
    ensures EncodingOk(enc)
  {
    EncodeWith(sol, if sol.fractional then SdmWord(sol.frac, ref) else 0)
  }

  function EncodeWith(sol: PllSolution, acc: nat): (enc: PllEncoding)
    requires 1 <= sol.order && acc < 0x1_0000
    ensures EncodingOk(enc)
  {
    PllEncoding(DivField(sol.order), PackNiSi(sol.n), if sol.fractional then 0 else 0x08, acc / 256, acc % 256)
  }

  method PackSolution(sol: PllSolution, ref: nat) returns (enc: PllEncoding)
    requires 1 <= sol.order && (sol.fractional ==> SdmLoop(sol.frac, ref).Done?)
    ensures enc == Encode(sol, ref)
  {
    var acc := 0;
    if sol.fractional {
      acc := PackSdm(sol.frac, ref);
    }
    enc := EncodeWith(sol, acc);
  }

  // ---- What the words mean to the chip ----

  function DecodeOrder(div: nat): nat {
    div / 32 + 1
  }

  function DecodeSdm(enc: PllEncoding): nat {
    if enc.mode / 8 % 2 == 1 then 0 else 256 * enc.sdmHi + enc.sdmLo
  }

  /** 65536 times the VCO frequency in kHz that the chip synthesises from these words. */
  function DecodeVco(enc: PllEncoding, ref: nat): nat
    requires enc.niSi < 256
  {
    2 * ref * (0x1_0000 * DecodeN(enc.niSi) + DecodeSdm(enc))
  }

  /** An error, in 1/65536 kHz, of less than a 64th of the reference in whole kHz; 449 kHz at 28,800. */
  predicate Close(err: int, ref: nat)
    requires 0 < ref
  {
    -0x1_0000 * ((ref - 1) / 64) <= err <= 0x1_0000 * ((ref - 1) / 64)
  }

  lemma SdmFields(sol: PllSolution, acc: nat)
    requires 1 <= sol.order && acc < 0x1_0000 && (!sol.fractional ==> acc == 0)
    ensures DecodeSdm(EncodeWith(sol, acc)) == acc
  {
    var enc := EncodeWith(sol, acc);
    assert acc == 256 * (acc / 256) + acc % 256;
    if sol.fractional {
      assert enc.mode == 0;
    } else {
      assert enc.mode == 8;
    }
  }

  lemma OrderField(order: nat)
    requires 1 <= order <= 6
    ensures DecodeOrder(DivField(order)) == order
  {
  }

  /** Fractional part the chip adds, in 1/65536 of a step. */
  function SdmPart(sol: PllSolution, ref: nat): nat {
    if sol.fractional then SdmWord(sol.frac, ref) else 0
  }

  lemma EncodingMeaning(sol: PllSolution, ref: nat)
    requires 1 <= sol.order <= 6
    ensures DecodeOrder(Encode(sol, ref).div) == sol.order
    ensures DecodeVco(Encode(sol, ref), ref) == 2 * ref * (0x1_0000 * DecodeN(PackNiSi(sol.n)) + SdmPart(sol, ref))
  {
    SdmFields(sol, SdmPart(sol, ref));
    OrderField(sol.order);
  }

  /** Spur avoidance and the sigma-delta word together: within a 64th of the reference, as far as n goes. */
  lemma ChosenIsClose(n: nat, frac: nat, ref: nat, sdm: nat)
    requires 2304 <= ref < 0x8000 && frac < 2 * ref
    requires var f := Quantise(n, frac, ref).1;
             if f == 0 then sdm == 0 else -16 * 0x1_0000 <= 2 * ref * sdm - 0x1_0000 * f <= 15 * 0x1_0000
    ensures Close(2 * ref * (0x1_0000 * Quantise(n, frac, ref).0 + sdm) - 0x1_0000 * Khz(n, frac, ref), ref)
  {
    var (m, f) := Quantise(n, frac, ref);
    QuantiseSnaps(n, frac, ref);
    SnapMovesLess(frac, ref);
    QuantisedFraction(n, frac, ref);
    VcoError(ref, n, frac, m, f, sdm, Snap(frac, ref));
    ErrorsAdd(ref, Snap(frac, ref) - frac, 2 * ref * sdm - 0x1_0000 * f, f != 0);
  }

  lemma VcoError(ref: nat, n: nat, frac: nat, m: nat, f: nat, sdm: nat, snap: nat)
    requires Khz(m, f, ref) == 2 * ref * n + snap
    ensures 2 * ref * (0x1_0000 * m + sdm) - 0x1_0000 * Khz(n, frac, ref) == 0x1_0000 * (snap - frac) + (2 * ref * sdm - 0x1_0000 * f)
  {
    assert 2 * ref * (0x1_0000 * m + sdm) == 0x1_0000 * (2 * ref * m) + 2 * ref * sdm;
  }

  lemma QuantisedFraction(n: nat, frac: nat, ref: nat)
    requires ZonesFit(ref) && frac < 2 * ref
    ensures var (m, f) := Quantise(n, frac, ref);
            n <= m <= n + 1 && f < 2 * ref && (f == 0 <==> Snap(frac, ref) == 0 || Snap(frac, ref) == 2 * ref)
  {
    ZoneEdges(ref);
  }

  /** A fraction that stays one moves by less than a 128th of the reference. */
  lemma SnapMovesLess(frac: nat, ref: nat)
    requires 2304 <= ref < 0x8000 && frac < 2 * ref
    ensures var move := Snap(frac, ref) - frac;
            && -(ref as int) < 64 * move < ref
            && (Snap(frac, ref) != 0 && Snap(frac, ref) != 2 * ref ==> -(ref as int) < 128 * move < ref)
  {
    ZoneEdges(ref);
  }

  lemma ErrorsAdd(ref: nat, move: int, drift: int, fractional: bool)
    requires 2304 <= ref && -(ref as int) < 64 * move < ref && (fractional ==> -(ref as int) < 128 * move < ref)
    requires if fractional then -16 * 0x1_0000 <= drift <= 16 * 0x1_0000 else drift == 0
    ensures Close(0x1_0000 * move + drift, ref)
  {
  }

  /** A decoded n below the encoded one is a whole step short, far outside the bound. */
  lemma WrongStepIsFar(ref: nat, n: nat, m: nat, sdm: nat, vco: nat)
    requires 0 < ref && m < n && Close(2 * ref * (0x1_0000 * n + sdm) - 0x1_0000 * vco, ref)
    ensures !Close(2 * ref * (0x1_0000 * m + sdm) - 0x1_0000 * vco, ref)
  {
    Times(2 * ref, 0x1_0000 * m + sdm, 0x1_0000 * (n - 1) + sdm);
    assert 2 * ref * (0x1_0000 * n + sdm) == 2 * ref * (0x1_0000 * (n - 1) + sdm) + 0x1_0000 * (2 * ref);
  }

  /** The solution, and the register words, that tuning to a target ends up with. */
  function Chosen(target: nat, ref: nat): PllSolution {
    Normalize(Candidate(OrderFor(target), target * Divisor(OrderFor(target)), ref), ref)
  }

  function PllWords(target: nat, ref: nat): (enc: PllEncoding)
    ensures EncodingOk(enc)
  {
    Encode(Chosen(target, ref), ref)
  }

  /** Nowhere on the way to these words is anything divided by zero, a step of 0 or a weight shifted out. */
  predicate Computable(target: nat, ref: nat) {
    Tunable(target) ==>
      U32(2 * ref) != 0 && (Chosen(target, ref).fractional ==> SdmLoop(Chosen(target, ref).frac, ref).Done?)
  }

  lemma ComputableBelow(target: nat, ref: nat)
    requires 0 < ref < 0x8000
    ensures Computable(target, ref)
  {
    SmallNumbersStay(2 * ref);
    SdmEnds(Chosen(target, ref).frac, ref);
  }

  // ---- Whether the step count fits its byte ----

  /** The VCO frequency is within the 268 steps that the packed byte has room for, and what spur avoidance rounds down to them. */
  predicate StepsFit(target: nat, ref: nat) {
    target * Divisor(OrderFor(target)) <= 536 * ref + 127 * ref / 64
  }

  lemma StepsOf(vco: nat, ref: nat, n: nat, frac: nat, far: nat)
    requires vco == 2 * ref * n + frac && frac < 2 * ref && far < 2 * ref
    ensures (if frac > far then n + 1 else n) <= 268 <==> vco <= 536 * ref + far
  {
    if n <= 267 {
      Times(2 * ref, n, 267);
    } else if n == 268 {
      assert 2 * ref * n == 536 * ref;
    } else {
      Times(2 * ref, 269, n);
    }
  }

  /** How many steps are chosen: at least 13, and at most 268 exactly when they fit. */
  lemma ChosenSteps(target: nat, ref: nat)
    requires Tunable(target) && 0 < ref < 0x8000
    ensures 13 <= Chosen(target, ref).n < 0x1_0000_0000
    ensures Chosen(target, ref).n <= 268 <==> StepsFit(target, ref)
  {
    OrderForHits(target);
    var order := OrderFor(target);
    var vco := target * Divisor(order);
    CandidateSolves(target, order, ref);
    var sol := Candidate(order, vco, ref);
    ZoneEdges(ref);
    SmallNumbersStay(ref * 127);
    StepsBounds(ref, sol.n, sol.frac);
    StepsOf(vco, ref, sol.n, sol.frac, ZoneFar(ref));
  }

  lemma StepsBounds(ref: nat, n: nat, frac: nat)
    requires 0 < ref < 0x8000 && frac < 2 * ref && VCO_FLOOR_KHZ <= 2 * ref * n + frac < VCO_CEIL_KHZ
    ensures 13 <= n < VCO_CEIL_KHZ
  {
    if n < 13 {
      Times(2 * ref, n, 12);
    } else if n >= VCO_CEIL_KHZ {
      Times(n, 1, 2 * ref);
    }
  }

  /** The decoded VCO is within a 64th of the reference of target * 2^order, in whole kHz. */
  predicate Accurate(target: nat, ref: nat)
    requires 0 < ref
  {
    var enc := PllWords(target, ref);
    Close(DecodeVco(enc, ref) - 0x1_0000 * (target * Divisor(DecodeOrder(enc.div))), ref)
  }

  lemma OrderChosen(target: nat, ref: nat)
    requires Tunable(target)
    ensures DecodeOrder(PllWords(target, ref).div) == OrderFor(target)
  {
    OrderForHits(target);
    EncodingMeaning(Chosen(target, ref), ref);
  }

  /** From 2304 kHz on the errors of spur avoidance and of the sigma-delta word add up to less than the bound. */
  lemma AccurateIfStepsFit(target: nat, ref: nat)
    requires Tunable(target) && 2304 <= ref < 0x8000
    ensures Accurate(target, ref) <==> Chosen(target, ref).n <= 268
  {
    OrderForHits(target);
    OrderChosen(target, ref);
    var order := OrderFor(target);
    var vco := target * Divisor(order);
    CandidateSolves(target, order, ref);
    var sol := Candidate(order, vco, ref);
    var best := Chosen(target, ref);
    assert Khz(sol.n, sol.frac, ref) == vco;
    ChosenSteps(target, ref);
    if best.fractional {
      QuantisedFraction(sol.n, sol.frac, ref);
      SdmAccuracyAtAnyReference(best.frac, ref);
    }
    ChosenIsClose(sol.n, sol.frac, ref, SdmPart(best, ref));
    EncodingMeaning(best, ref);
    NiSiRoundTrip(best.n);
    DecodedN(PackNiSi(best.n), 0, 0);
    if best.n > 268 {
      WrongStepIsFar(ref, best.n, DecodeN(PackNiSi(best.n)), SdmPart(best, ref), vco);
    }
  }

  lemma VcoReach(enc: PllEncoding, ref: nat)
    requires EncodingOk(enc)
    ensures DecodeVco(enc, ref) <= 0x1_0000 * (538 * ref)
  {
    DecodedN(enc.niSi, 0, 0);
    Times(2 * ref, 0x1_0000 * DecodeN(enc.niSi) + DecodeSdm(enc), 0x1_0000 * 269);
  }

  /** Below it, no byte reaches the VCO window. */
  lemma LowReferenceIsFar(target: nat, ref: nat)
    requires Tunable(target) && 0 < ref < 2304
    ensures !Accurate(target, ref) && !StepsFit(target, ref)
  {
    OrderForHits(target);
    OrderChosen(target, ref);
    VcoReach(PllWords(target, ref), ref);
  }

  /**
   End to end on the words, at any reference below 32768 kHz: the divider order is the one that
   hits the window, and the decoded VCO is within a 64th of the reference of target * 2^order
   exactly when the steps fit.
   */
  lemma SynthesisAccuracy(target: nat, ref: nat)
    requires Tunable(target) && 0 < ref < 0x8000
    ensures var order := DecodeOrder(PllWords(target, ref).div); 1 <= order <= 6 && InWindow(target, order)
    ensures Accurate(target, ref) <==> StepsFit(target, ref)
  {
    OrderForHits(target);
    OrderChosen(target, ref);
    if ref < 2304 {
      LowReferenceIsFar(target, ref);
    } else {
      AccurateIfStepsFit(target, ref);
      ChosenSteps(target, ref);
    }
  }

  /** The steps fit for all targets exactly from 6581 kHz on; below, they do not for the highest target. */
  lemma AllStepsFitIff(ref: nat)
    ensures (forall target | Tunable(target) :: StepsFit(target, ref)) <==> ref >= 6581
    ensures ref < 6581 ==> Tunable(1769999) && !StepsFit(1769999, ref)
  {
    if ref >= 6581 {
      forall target | Tunable(target)
        ensures StepsFit(target, ref)
      {
        OrderForHits(target);
      }
    } else {
      Divisors();
      assert Tunable(1769999) && OrderFor(1769999) == 1;
    }
  }

  /** Below 32768 kHz synthesis is accurate for every target exactly from 6581 kHz on. */
  lemma AccurateEverywhereIff(ref: nat)
    requires 0 < ref < 0x8000
    ensures (forall target | Tunable(target) :: Accurate(target, ref)) <==> ref >= 6581
  {
    AllStepsFitIff(ref);
    forall target | Tunable(target)
      ensures Accurate(target, ref) <==> StepsFit(target, ref)
    {
      SynthesisAccuracy(target, ref);
    }
  }

  /** At the crystal's own 28,800 kHz: within 449 kHz, for every target. */
  lemma PllWordsAccuracy(target: nat)
    requires Tunable(target)
    ensures var enc := PllWords(target, REF_KHZ); var order := DecodeOrder(enc.div);
            && 1 <= order <= 6 && InWindow(target, order)
            && -449 * 0x1_0000 <= DecodeVco(enc, REF_KHZ) - 0x1_0000 * (target * Divisor(order)) <= 449 * 0x1_0000
  {
    SynthesisAccuracy(target, REF_KHZ);
    AllStepsFitIff(REF_KHZ);
    assert StepsFit(target, REF_KHZ);
  }

  // ---- Where the driver divides by zero ----

  /** Shares as what they are: the reference, and each half of the one before. */
  ghost predicate Halved(shares: seq<nat>, ref: nat) {
    && |shares| == 16 && shares[1] == ref && shares[15] >= 2
    && forall j, k | 1 <= j < k == j + 1 <= 15 :: shares[k] == shares[j] / 2
  }

  lemma SharesAreHalved(ref: nat)
    requires 0x8000 <= ref < 0x8000_0000
    ensures Halved(Shares(ref), ref)
  {
    ShareIsShift(ref, 1);
    assert Shr(2 * ref, 0) == 2 * ref;
    forall j, k | 1 <= j < k == j + 1 <= 15
      ensures Shares(ref)[k] == Shares(ref)[j] / 2
    {
      ShareIsShift(ref, j);
      ShareIsShift(ref, k);
    }
    ShareAtLeastTwo(ref, 15);
  }

  lemma {:induction false} ShareBounds(shares: seq<nat>, ref: nat, k: nat, w: nat)
    requires Halved(shares, ref) && 1 <= k <= 15 && w == Divisor(k - 1)
    ensures w * shares[k] <= ref < w * shares[k] + w
    decreases k
  {
    if k > 1 {
      ShareBounds(shares, ref, k - 1, Divisor(k - 2));
      HalfStep(ref, Divisor(k - 2), shares[k - 1], shares[k]);
    }
  }

  /** The k-th share is the reference over w == 2^(k - 1). */
  lemma ShareOver(shares: seq<nat>, ref: nat, k: nat, w: nat)
    requires Halved(shares, ref) && 1 <= k <= 15 && 2 * w == WeightAt(k)
    ensures w * shares[k] <= ref < w * shares[k] + w
  {
    DivisorAt(k);
    ShareBounds(shares, ref, k, w);
  }

  lemma {:induction false} SharesFall(shares: seq<nat>, ref: nat, j: nat, k: nat)
    requires Halved(shares, ref) && 1 <= j <= k <= 15
    ensures shares[k] <= shares[j]
    decreases k
  {
    if j < k {
      SharesFall(shares, ref, j, k - 1);
    }
  }

  lemma TwiceTheShare(shares: seq<nat>, ref: nat, j: nat, k: nat)
    requires Halved(shares, ref) && 1 <= j < k <= 15
    ensures 2 * shares[k] <= shares[j]
  {
    SharesFall(shares, ref, j, k - 1);
  }

  /** From here on the loop ends dividing by zero. */
  ghost predicate Fails(residual: nat, k: nat, acc: nat, shares: seq<nat>)
    requires 1 <= k <= 16 && |shares| == 16
  {
    Sdm(residual, k, acc, shares, Bits()) == DivideByZero
  }

  /** A residual passes the shares it is not above, and what is left of it after the first it is above fails. */
  lemma {:induction false} TakeThenFail(residual: nat, k: nat, a: nat, acc: nat, shares: seq<nat>, rest: nat)
    requires 1 <= k <= a <= 14 && |shares| == 16 && 2 <= rest && residual == shares[a] + rest
    requires forall j | k <= j < a :: residual <= shares[j]
    requires Fails(rest, a + 1, acc + Bits()[a], shares)
    ensures Fails(residual, k, acc, shares)
    decreases a - k
  {
    if k < a {
      TakeThenFail(residual, k + 1, a, acc, shares, rest);
    }
  }

  lemma ShareFails(shares: seq<nat>, ref: nat, k: nat, a: nat, acc: nat, rest: nat)
    requires Halved(shares, ref) && 1 <= k <= a <= 14 && 2 <= rest <= shares[a]
    requires Fails(rest, a + 1, acc + Bits()[a], shares)
    ensures Fails(shares[a] + rest, k, acc, shares)
  {
    forall j | k <= j < a
      ensures shares[a] + rest <= shares[j]
    {
      TwiceTheShare(shares, ref, j, a);
    }
    TakeThenFail(shares[a] + rest, k, a, acc, shares, rest);
  }

  /** A share and a rest that no share is below. */
  lemma OneShareFails(shares: seq<nat>, ref: nat, k: nat, a: nat, acc: nat, rest: nat)
    requires Halved(shares, ref) && 1 <= k <= a <= 14 && 2 <= rest <= shares[15]
    ensures Fails(shares[a] + rest, k, acc, shares)
  {
    forall j | a < j <= 15
      ensures rest <= shares[j]
    {
      SharesFall(shares, ref, j, 15);
    }
    StuckFails(rest, a + 1, acc + Bits()[a], shares, Bits());
    SharesFall(shares, ref, a, 15);
    ShareFails(shares, ref, k, a, acc, rest);
  }

  /** Two shares and such a rest. */
  lemma TwoSharesFail(shares: seq<nat>, ref: nat, a: nat, b: nat, rest: nat)
    requires Halved(shares, ref) && 1 <= a < b <= 14 && 2 <= rest <= shares[15]
    ensures Fails(shares[a] + (shares[b] + rest), 1, 0, shares)
  {
    OneShareFails(shares, ref, a + 1, b, 0 + Bits()[a], rest);
    SharesFall(shares, ref, b, 15);
    TwiceTheShare(shares, ref, a, b);
    ShareFails(shares, ref, 1, a, 0, shares[b] + rest);
  }

  /** A fraction that spur avoidance leaves alone. */
  predicate Untouched(frac: nat, ref: nat) {
    (ref <= 64 * frac && 128 * frac + 128 <= 127 * ref) || (129 * ref <= 128 * frac && 64 * frac + 64 <= 127 * ref)
  }

  lemma UntouchedStays(n: nat, frac: nat, ref: nat)
    requires ZonesFit(ref) && Untouched(frac, ref)
    ensures Quantise(n, frac, ref) == (n, frac) && 0 < frac < 2 * ref
  {
    ZoneEdges(ref);
  }

  /** A VCO frequency in the window that is even, with a fraction that fails. */
  ghost predicate FailingVco(vco: nat, ref: nat, n: nat, frac: nat, shares: seq<nat>) {
    && VCO_FLOOR_KHZ <= vco < VCO_CEIL_KHZ && vco % 2 == 0 && vco == 2 * ref * n + frac
    && Untouched(frac, ref) && |shares| == 16 && Fails(frac, 1, 0, shares)
  }

  lemma SameSplit(ref: nat, n: nat, frac: nat, m: nat, frac': nat)
    requires 0 < ref && 2 * ref * n + frac == 2 * ref * m + frac' && frac < 2 * ref && frac' < 2 * ref
    ensures n == m && frac == frac'
  {
    if n < m {
      StepsOrder(ref, n + 1, m);
    } else if n > m {
      StepsOrder(ref, m + 1, n);
    }
  }

  lemma HighTarget(target: nat)
    requires 885000 <= target < 1770000
    ensures Tunable(target) && OrderFor(target) == 1 && Divisor(1) == 2 && InWindow(target, 1)
  {
    Divisors();
  }

  /** The lowest divider reaches every even VCO frequency in the window. */
  lemma TargetFails(vco: nat, ref: nat, n: nat, frac: nat)
    requires ZonesFit(ref) && FailingVco(vco, ref, n, frac, Shares(ref))
    ensures Tunable(vco / 2) && !Computable(vco / 2, ref)
  {
    var target := vco / 2;
    HighTarget(target);
    CandidateSolves(target, 1, ref);
    var sol := Candidate(1, target * Divisor(1), ref);
    UntouchedStays(n, frac, ref);
    SameSplit(ref, n, frac, sol.n, sol.frac);
  }

  lemma EvenSteps(ref: nat, n: nat, frac: nat)
    requires frac % 2 == 0
    ensures (2 * ref * n + frac) % 2 == 0
  {
    var p, f := ref * n, frac / 2;
    assert 2 * ref * n + frac == 2 * (p + f);
  }

  lemma StepsInto(v: nat, frac: nat) returns (n: nat)
    requires 0 < v <= VCO_FLOOR_KHZ && frac <= VCO_FLOOR_KHZ
    ensures VCO_FLOOR_KHZ <= v * n + frac < VCO_CEIL_KHZ
  {
    var room := VCO_FLOOR_KHZ - frac + v - 1;
    Quotient(room, v);
    n := room / v;
  }

  /** With room for two references in the window, every fraction is reached with some step count. */
  lemma StepCount(ref: nat, frac: nat) returns (n: nat, vco: nat)
    requires 0 < ref <= 885000 && frac <= VCO_FLOOR_KHZ && frac % 2 == 0
    ensures vco == 2 * ref * n + frac && VCO_FLOOR_KHZ <= vco < VCO_CEIL_KHZ && vco % 2 == 0
  {
    n := StepsInto(2 * ref, frac);
    vco := 2 * ref * n + frac;
    EvenSteps(ref, n, frac);
  }

  /** Either share, or both, and a little make a fraction that is left alone. */
  lemma SmallFits(ref: nat, a: nat, b: nat, frac: nat)
    requires 0x8000 <= ref <= 885000 && 16 * a <= ref < 16 * a + 16 && 64 * b <= ref < 64 * b + 64
    requires b + 2 <= frac <= a + b + 2
    ensures frac <= VCO_FLOOR_KHZ && Untouched(frac, ref)
  {
  }

  /** A share or two, of even sum, and two. */
  function SmallFraction(a: nat, b: nat): (frac: nat)
    ensures frac % 2 == 0
  {
    if b % 2 == 0 then b + 2 else if a % 2 == 0 then a + 2 else a + (b + 2)
  }

  lemma SmallFractionFails(shares: seq<nat>, ref: nat)
    requires Halved(shares, ref)
    ensures Fails(SmallFraction(shares[5], shares[7]), 1, 0, shares)
  {
    if shares[7] % 2 == 0 {
      OneShareFails(shares, ref, 1, 7, 0, 2);
    } else if shares[5] % 2 == 0 {
      OneShareFails(shares, ref, 1, 5, 0, 2);
    } else {
      TwoSharesFail(shares, ref, 5, 7, 2);
    }
  }

  lemma SmallReferenceFails(shares: seq<nat>, ref: nat) returns (vco: nat, n: nat, frac: nat)
    requires Halved(shares, ref) && 0x8000 <= ref <= 885000
    ensures FailingVco(vco, ref, n, frac, shares)
  {
    frac := SmallFraction(shares[5], shares[7]);
    SmallFractionFails(shares, ref);
    SharesFall(shares, ref, 5, 7);
    ShareOver(shares, ref, 5, 16);
    ShareOver(shares, ref, 7, 64);
    SmallFits(ref, shares[5], shares[7], frac);
    n, vco := StepCount(ref, frac);
  }

  /** 20 or 21, to make a sum even. */
  function Odd(x: nat): (r: nat)
    ensures 20 <= r <= 21 && (x + r) % 2 == 0
  {
    20 + x % 2
  }

  lemma LargeFits(ref: nat, share: nat, rest: nat)
    requires 885000 < ref && ref < 16 * share + 16 && 2 * share <= ref && 20 <= rest <= 21
    ensures Untouched(share + rest, ref)
  {
  }

  /** One share, and 20 or 21, with no whole step or one. */
  lemma ShareReaches(shares: seq<nat>, ref: nat, n: nat, a: nat) returns (vco: nat, frac: nat)
    requires Halved(shares, ref) && 885000 < ref && n <= 1 && 2 <= a <= 5
    requires VCO_FLOOR_KHZ <= 2 * ref * n + shares[a] + 20 && 2 * ref * n + shares[a] + 21 < VCO_CEIL_KHZ
    ensures FailingVco(vco, ref, n, frac, shares)
  {
    var rest := Odd(shares[a]);
    ShareOver(shares, ref, 15, 16384);
    OneShareFails(shares, ref, 1, a, 0, rest);
    frac := shares[a] + rest;
    vco := 2 * ref * n + frac;
    EvenSteps(ref, n, frac);
    SharesFall(shares, ref, 2, a);
    SharesFall(shares, ref, a, 5);
    ShareOver(shares, ref, 2, 2);
    ShareOver(shares, ref, 5, 16);
    LargeFits(ref, shares[a], rest);
  }

  /** Two shares, and 20 or 21, with no whole step. */
  lemma TwoSharesReach(shares: seq<nat>, ref: nat, a: nat) returns (vco: nat, frac: nat)
    requires Halved(shares, ref) && 885000 < ref && 1 <= a <= 2
    requires VCO_FLOOR_KHZ <= shares[a] + shares[3] && shares[a] + shares[3] + 21 < VCO_CEIL_KHZ
    ensures FailingVco(vco, ref, 0, frac, shares)
  {
    var rest := Odd(shares[a] + shares[3]);
    ShareOver(shares, ref, 15, 16384);
    TwoSharesFail(shares, ref, a, 3, rest);
    frac := shares[a] + (shares[3] + rest);
    vco := frac;
    ShareOver(shares, ref, 2, 2);
    ShareOver(shares, ref, 3, 4);
  }

  /** Large references: one whole step at most, so the fraction is chosen by size. */
  lemma LargeReferenceFails(shares: seq<nat>, ref: nat) returns (vco: nat, n: nat, frac: nat)
    requires Halved(shares, ref) && 885000 < ref && ZonesFit(ref)
    ensures FailingVco(vco, ref, n, frac, shares)
  {
    n := 0;
    if ref <= 1700000 {
      n := 1;
      ShareOver(shares, ref, 5, 16);
      vco, frac := ShareReaches(shares, ref, n, 5);
    } else if ref <= 2800000 {
      ShareOver(shares, ref, 3, 4);
      vco, frac := TwoSharesReach(shares, ref, 1);
    } else if ref <= 4700000 {
      ShareOver(shares, ref, 2, 2);
      ShareOver(shares, ref, 3, 4);
      vco, frac := TwoSharesReach(shares, ref, 2);
    } else if ref <= 7079940 {
      ShareOver(shares, ref, 2, 2);
      vco, frac := ShareReaches(shares, ref, n, 2);
    } else if ref <= 14159880 {
      ShareOver(shares, ref, 3, 4);
      vco, frac := ShareReaches(shares, ref, n, 3);
    } else if ref <= 28319760 {
      ShareOver(shares, ref, 4, 8);
      vco, frac := ShareReaches(shares, ref, n, 4);
    } else {
      ShareOver(shares, ref, 5, 16);
      vco, frac := ShareReaches(shares, ref, n, 5);
    }
  }

  /**
   Over all targets, and for every reference whose zone products fit 32 bits, the driver divides
   by zero for none exactly from 1 to 32767 kHz.
   */
  lemma ComputableEverywhereIff(ref: nat)
    requires ref == 0 || ZonesFit(ref)
    ensures (forall target :: Computable(target, ref)) <==> 0 < ref < 0x8000
  {
    if ref == 0 {
      assert Tunable(885000) && !Computable(885000, 0);
    } else if ref < 0x8000 {
      forall target { ComputableBelow(target, ref); }
    } else {
      var target := TargetThatFails(ref);
    }
  }

  lemma TargetThatFails(ref: nat) returns (target: nat)
    requires 0x8000 <= ref && ZonesFit(ref)
    ensures Tunable(target) && !Computable(target, ref)
  {
    SharesAreHalved(ref);
    var vco, n, frac;
    if ref <= 885000 {
      vco, n, frac := SmallReferenceFails(Shares(ref), ref);
    } else {
      vco, n, frac := LargeReferenceFails(Shares(ref), ref);
    }
    TargetFails(vco, ref, n, frac);
    target := vco / 2;
  }

  lemma FractionOf578(shares: seq<nat>, ref: nat)
    requires Halved(shares, ref) && ref == 32768
    ensures FailingVco(1770050, ref, 27, 578, shares)
  {
    ShareOver(shares, ref, 7, 64);
    ShareOver(shares, ref, 10, 512);
    TwoSharesFail(shares, ref, 7, 10, 2);
    assert shares[7] + (shares[10] + 2) == 578;
  }

  /** At 32768 kHz, 885,025 kHz leads to the fraction 512 + 64 + 2: two shares, and two more that nothing takes. */
  lemma DriverDividesByZero(ref: nat)
    requires ref == 32768
    ensures Tunable(885025) && !Computable(885025, ref)
  {
    SharesAreHalved(ref);
    FractionOf578(Shares(ref), ref);
    TargetFails(1770050, ref, 27, 578);
  }
}
