/** R820T channel filter selection: low-pass table, high-pass offsets and the IF that centres the channel. */
module Bandwidth {
  import opened Words

  const LOW_PASS_KHZ: seq<nat> := [1700, 1600, 1550, 1450, 1200, 900, 700, 550, 450, 350]
  const HIGH_PASS_1: nat := 350
  const HIGH_PASS_2: nat := 380

  // ---- What the chip makes of register 0x0B ----

  /** The high-pass offsets left enabled, in kHz. */
  function Offsets(reg: byte): nat {
    (if reg & 0x20 == 0 then HIGH_PASS_2 else 0) + (if reg & 0x40 == 0 then HIGH_PASS_1 else 0)
  }

  /** The code of a table entry counts down from 15. */
  function Code(index: nat): byte
    requires index < 10
  {
    (15 - index) as byte
  }

  /** reg selects table entry `index` (bit 7 set, bit 4 clear). */
  predicate Selects(reg: byte, index: nat)
    requires index < 10
  {
    reg & 0x9F == 0x80 | Code(index)
  }

  lemma CodesDiffer(i: nat, j: nat)
    requires i < 10 && j < 10
    ensures Code(i) & 0x0F == Code(i) && (Code(i) == Code(j) ==> i == j)
  {
    CodeIsNibble(i);
    CodeIsNibble(j);
  }

  lemma CodeIsNibble(i: nat)
    requires i < 10
    ensures 6 <= Code(i) <= 15 && Code(i) as nat == 15 - i && Code(i) & 0x0F == Code(i)
  {
  }

  /** A register value selects at most one table entry. */
  lemma SelectionIsUnique(reg: byte, i: nat, j: nat)
    requires i < 10 && j < 10 && Selects(reg, i) && Selects(reg, j)
    ensures i == j
  {
    CodesDiffer(i, j);
    CodesDiffer(j, i);
    OrWithTop(Code(i), Code(j));
  }

  lemma OrWithTop(a: byte, b: byte)
    requires a & 0x0F == a && b & 0x0F == b && 0x80 | a == 0x80 | b
    ensures a == b
  {
  }

  /** The choice made for a request within the table's reach. */
  ghost predicate Fitting(bwKhz: nat, index: nat, reg: byte, ifKhz: nat) {
    && index < 10 && Selects(reg, index)
    // wide enough, and no narrower entry would be under the same offsets
    && bwKhz <= LOW_PASS_KHZ[index] + Offsets(reg)
    && (forall j | index < j < 10 :: LOW_PASS_KHZ[j] + Offsets(reg) < bwKhz)
    // offsets are brought in only when the table alone, or with one of them, would not do
    && (reg & 0x20 == 0 <==> bwKhz > 2050)
    && (reg & 0x40 == 0 <==> 1700 < bwKhz <= 2050 || bwKhz > 2080)
    // the channel is centred
    && ifKhz + (LOW_PASS_KHZ[index] + Offsets(reg)) / 2 == 2300 + Offsets(reg)
  }

  /** What comes of each request: register 0x0A, register 0x0B and the IF in kHz. */
  function FilterFor(bwKhz: nat): (byte, byte, nat) {
    if bwKhz > 7000 then (0x10, 0x0B, 4570)
    else if bwKhz > 6000 then (0x10, 0x2A, 4570)
    else if bwKhz > 2430 then (0x10, 0x6B, 3570)
    // both offsets
    else if bwKhz > 2330 then (0x00, 0x8F, 1815)
    else if bwKhz > 2280 then (0x00, 0x8E, 1865)
    else if bwKhz > 2180 then (0x00, 0x8D, 1890)
    else if bwKhz > 2080 then (0x00, 0x8C, 1940)
    // the larger one
    else if bwKhz > 2050 then (0x00, 0xCF, 1640)
    // the smaller one
    else if bwKhz > 1950 then (0x00, 0xAF, 1625)
    else if bwKhz > 1900 then (0x00, 0xAE, 1675)
    else if bwKhz > 1800 then (0x00, 0xAD, 1700)
    else if bwKhz > 1700 then (0x00, 0xAC, 1750)
    // none
    else if bwKhz > 1600 then (0x00, 0xEF, 1450)
    else if bwKhz > 1550 then (0x00, 0xEE, 1500)
    else if bwKhz > 1450 then (0x00, 0xED, 1525)
    else if bwKhz > 1200 then (0x00, 0xEC, 1575)
    else if bwKhz > 900 then (0x00, 0xEB, 1700)
    else if bwKhz > 700 then (0x00, 0xEA, 1850)
    else if bwKhz > 550 then (0x00, 0xE9, 1950)
    else if bwKhz > 450 then (0x00, 0xE8, 2025)
    else if bwKhz > 350 then (0x00, 0xE7, 2075)
    else (0x00, 0xE6, 2125)
  }

  /** For every request in the table's reach one choice fits, and it is the one listed. */
  lemma FittingIsListed(bwKhz: nat, index: nat, reg: byte, ifKhz: nat)
    requires bwKhz <= 2430 && Fitting(bwKhz, index, reg, ifKhz)
    ensures FilterFor(bwKhz) == (0x00, reg, ifKhz)
  {
    var flags := reg & 0x60;
    RegisterIs(reg, index);
    TableDecreases(index);
    assert index + 1 < 10 ==> LOW_PASS_KHZ[index + 1] + Offsets(reg) < bwKhz;
  }

  lemma RegisterIs(reg: byte, index: nat)
    requires index < 10 && Selects(reg, index)
    ensures reg as nat == 128 + (if reg & 0x20 != 0 then 32 else 0) + (if reg & 0x40 != 0 then 64 else 0) + 15 - index
  {
    CodeIsNibble(index);
    RegisterSum(reg, Code(index));
  }

  lemma RegisterSum(reg: byte, code: byte)
    requires reg & 0x9F == 0x80 | code && code & 0x0F == code
    ensures reg as nat == 128 + (if reg & 0x20 != 0 then 32 else 0) + (if reg & 0x40 != 0 then 64 else 0) + code as nat
  {
    if reg & 0x20 != 0 {
      if reg & 0x40 != 0 {
        assert reg == 0xE0 + code && code <= 0x0F;
      } else {
        assert reg == 0xA0 + code && code <= 0x0F;
      }
    } else if reg & 0x40 != 0 {
      assert reg == 0xC0 + code && code <= 0x0F;
    } else {
      assert reg == 0x80 + code && code <= 0x0F;
    }
  }

  method SelectFilter(bwKhz: nat) returns (reg0a: byte, reg0b: byte, ifKhz: nat, ghost index: nat)
    ensures bwKhz > 7000 ==> (reg0a, reg0b, ifKhz) == (0x10, 0x0B, 4570)
    ensures 6000 < bwKhz <= 7000 ==> (reg0a, reg0b, ifKhz) == (0x10, 0x2A, 4570)
    ensures 2430 < bwKhz <= 6000 ==> (reg0a, reg0b, ifKhz) == (0x10, 0x6B, 3570)
    ensures bwKhz <= 2430 ==> reg0a == 0 && Fitting(bwKhz, index, reg0b, ifKhz)
    ensures 0 < ifKhz <= 4570
  {
    index := 0;
    if bwKhz > 7000 {
      return 0x10, 0x0B, 4570, 0;
    } else if bwKhz > 6000 {
      return 0x10, 0x2A, 4570, 0;
    } else if bwKhz > LOW_PASS_KHZ[0] + HIGH_PASS_1 + HIGH_PASS_2 {
      return 0x10, 0x6B, 3570, 0;
    }
    var working: nat, width := bwKhz, 0;
    reg0a, reg0b, ifKhz := 0x00, 0x80, 2300;
    if working > LOW_PASS_KHZ[0] + HIGH_PASS_1 {
      working, ifKhz, width := working - HIGH_PASS_2, ifKhz + HIGH_PASS_2, width + HIGH_PASS_2;
    } else {
      reg0b := reg0b | 0x20;
    }
    if working > LOW_PASS_KHZ[0] {
      working, ifKhz, width := working - HIGH_PASS_1, ifKhz + HIGH_PASS_1, width + HIGH_PASS_1;
    } else {
      reg0b := reg0b | 0x40;
    }
    var i := 0;
    while i < 10
      invariant 0 <= i <= 10
      invariant forall j | 0 <= j < i :: working <= LOW_PASS_KHZ[j]
    {
      if working > LOW_PASS_KHZ[i] {
        break;
      }
      i := i + 1;
    }
    if i != 0 {
      i := i - 1;
    }
    TableDecreases(i);
    CodeIsNibble(i);
    ghost var flags := reg0b;
    reg0b := reg0b | Code(i);
    FlagsSurvive(flags, Code(i));
    width := width + LOW_PASS_KHZ[i];
    ifKhz := ifKhz - width / 2;
    index := i;
  }

  lemma TableDecreases(i: nat)
    requires i < 10
    ensures 350 <= LOW_PASS_KHZ[i] <= 1700 && forall j | i < j < 10 :: LOW_PASS_KHZ[j] < LOW_PASS_KHZ[i]
    ensures i + 1 < 10 ==> forall j | i < j < 10 :: LOW_PASS_KHZ[j] <= LOW_PASS_KHZ[i + 1]
  {
  }

  lemma FlagsSurvive(flags: byte, code: byte)
    requires flags in {0x80, 0xA0, 0xC0, 0xE0} && code & 0x0F == code
    ensures (flags | code) & 0x9F == 0x80 | code
    ensures (flags | code) & 0x20 == flags & 0x20 && (flags | code) & 0x40 == flags & 0x40
  {
  }
}
