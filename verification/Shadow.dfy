/**
 The driver's shadow of the R820T registers. A read-modify-write takes the old bits from the
 shadow, never from the chip, so what the shadow says depends on the driver's own writes
 alone, and a reset can put a corrupted chip back to it.
 */
module Shadow {
  import opened Words
  import opened RegisterFile

  const REG_START: Address := 0x05
  const NUM_REGS: nat := 27

  /** The tracked registers, oldest first. */
  type Copy = s: seq<byte> | |s| == NUM_REGS witness seq(NUM_REGS, _ => 0)

  /** Only the R820T family is shadowed. */
  datatype Chip = Chip(hw: File, shadow: Copy, shadowed: bool)

  predicate InRange(reg: Address) {
    REG_START <= reg < REG_START + NUM_REGS
  }

  predicate Tracked(c: Chip, reg: Address) {
    c.shadowed && InRange(reg)
  }

  ghost predicate Coherent(c: Chip) {
    forall r: Address | Tracked(c, r) :: c.shadow[r - REG_START] == c.hw[r]
  }

  /** A register write that got through. */
  function WriteThrough(c: Chip, reg: Address, val: byte): Chip {
    c.(hw := c.hw[reg := val], shadow := if Tracked(c, reg) then c.shadow[reg - REG_START := val] else c.shadow)
  }

  /** What the driver takes a register to hold: its shadow if there is one, else the chip. */
  function Known(c: Chip, reg: Address): byte {
    if Tracked(c, reg) then c.shadow[reg - REG_START] else c.hw[reg]
  }

  /** An intent carried out on the strength of the shadow. */
  function Carry(c: Chip, w: Intent): Chip {
    if w.action.SettleDelay? then c
    else if w.mask == 0xFF || w.action.AssignFull? then WriteThrough(c, w.target, w.value)
    else WriteThrough(c, w.target, Merge(Known(c, w.target), w.value, w.mask))
  }

  lemma MergeKeeps(cur: byte, value: byte, mask: byte)
    ensures Merge(cur, value, mask) & !mask == cur & !mask
  {
  }

  lemma MergeTellsRest(a: byte, b: byte, value: byte, mask: byte)
    ensures Merge(a, value, mask) == Merge(b, value, mask) ==> a & !mask == b & !mask
  {
    MergeKeeps(a, value, mask);
    MergeKeeps(b, value, mask);
  }

  lemma MergeDependsOnRest(a: byte, b: byte, value: byte, mask: byte)
    ensures a & !mask == b & !mask ==> Merge(a, value, mask) == Merge(b, value, mask)
  {
  }

  /** Carried out on a coherent shadow, an intent does to the chip exactly what it says. */
  lemma CarryIsPut(c: Chip, w: Intent)
    requires Coherent(c)
    ensures Carry(c, w).hw == Put(c.hw, w) && Coherent(Carry(c, w))
  {
  }

  /** The shadow-based write comes out as a read-modify-write of the chip would. */
  predicate TrueRmw(c: Chip, reg: Address, value: byte, mask: byte) {
    Carry(c, Field(reg, value, mask)).hw == Put(c.hw, Field(reg, value, mask))
  }

  /** The driver is right about these bits of the register. */
  predicate RightAbout(c: Chip, reg: Address, bits: byte) {
    Known(c, reg) & bits == c.hw[reg] & bits
  }

  lemma CarriedRegister(c: Chip, reg: Address, value: byte, mask: byte)
    ensures Carry(c, Field(reg, value, mask)).hw == c.hw[reg := Merge(Known(c, reg), value, mask)]
  {
    MergeExtremes(Known(c, reg), value);
  }

  lemma PutRegister(f: File, reg: Address, value: byte, mask: byte)
    ensures Put(f, Field(reg, value, mask)) == f[reg := Merge(f[reg], value, mask)]
  {
    MergeExtremes(f[reg], value);
  }

  lemma RightIfTrue(c: Chip, reg: Address, value: byte, mask: byte)
    requires TrueRmw(c, reg, value, mask)
    ensures RightAbout(c, reg, !mask)
  {
    CarriedRegister(c, reg, value, mask);
    PutRegister(c.hw, reg, value, mask);
    SameUpdate(c.hw, reg, Merge(Known(c, reg), value, mask), Merge(c.hw[reg], value, mask));
    MergeTellsRest(Known(c, reg), c.hw[reg], value, mask);
  }

  lemma SameUpdate(f: File, reg: Address, a: byte, b: byte)
    ensures f[reg := a] == f[reg := b] ==> a == b
  {
    assert f[reg := a][reg] == a && f[reg := b][reg] == b;
  }

  lemma TrueIfRight(c: Chip, reg: Address, value: byte, mask: byte)
    requires RightAbout(c, reg, !mask)
    ensures TrueRmw(c, reg, value, mask)
  {
    CarriedRegister(c, reg, value, mask);
    PutRegister(c.hw, reg, value, mask);
    MergeDependsOnRest(Known(c, reg), c.hw[reg], value, mask);
  }

  /** A masked write is a true read-modify-write exactly when the driver is right about the bits it leaves alone. */
  lemma TrueRmwIff(c: Chip, reg: Address, value: byte, mask: byte)
    ensures TrueRmw(c, reg, value, mask) <==> RightAbout(c, reg, !mask)
  {
    if TrueRmw(c, reg, value, mask) {
      RightIfTrue(c, reg, value, mask);
    } else if RightAbout(c, reg, !mask) {
      TrueIfRight(c, reg, value, mask);
    }
  }

  function CarryAll(c: Chip, ws: seq<Intent>): Chip {
    if ws == [] then c else Carry(CarryAll(c, ws[..|ws| - 1]), ws[|ws| - 1])
  }

  lemma CarryAllSnoc(c: Chip, ws: seq<Intent>, w: Intent)
    ensures CarryAll(c, ws + [w]) == Carry(CarryAll(c, ws), w)
  {
    assert (ws + [w])[..|ws|] == ws;
  }

  lemma {:induction false} CarryAllAppend(c: Chip, ws: seq<Intent>, vs: seq<Intent>)
    ensures CarryAll(c, ws + vs) == CarryAll(CarryAll(c, ws), vs)
  {
    if vs == [] {
      assert ws + vs == ws;
    } else {
      CarryAllAppend(c, ws, vs[..|vs| - 1]);
      assert (ws + vs)[..|ws + vs| - 1] == ws + vs[..|vs| - 1];
    }
  }

  /** A coherent chip does what a list of intents says, and stays coherent, however far the list is carried out. */
  lemma {:induction false} CarryAllIsPutAll(c: Chip, ws: seq<Intent>)
    requires Coherent(c)
    ensures CarryAll(c, ws).hw == PutAll(c.hw, ws) && Coherent(CarryAll(c, ws)) && CarryAll(c, ws).shadowed == c.shadowed
  {
    if ws != [] {
      CarryAllIsPutAll(c, ws[..|ws| - 1]);
      CarryIsPut(CarryAll(c, ws[..|ws| - 1]), ws[|ws| - 1]);
    }
  }

  /** Write the first n tracked registers from the shadow. */
  function Flushed(c: Chip, n: nat): Chip
    requires n <= NUM_REGS
  {
    if n == 0 then c
    else
      var d := Flushed(c, n - 1);
      WriteThrough(d, REG_START + (n - 1), d.shadow[n - 1])
  }

  lemma {:induction false} FlushedIs(c: Chip, n: nat)
    requires n <= NUM_REGS
    ensures var d := Flushed(c, n);
            && d.shadow == c.shadow && d.shadowed == c.shadowed
            && (forall r: Address :: d.hw[r] == if REG_START <= r < REG_START + n then c.shadow[r - REG_START] else c.hw[r])
  {
    if n > 0 {
      FlushedIs(c, n - 1);
    }
  }

  lemma FullFlushIsCoherent(c: Chip)
    ensures Coherent(Flushed(c, NUM_REGS)) && Flushed(c, NUM_REGS).shadow == c.shadow
  {
    FlushedIs(c, NUM_REGS);
  }

  // ---- Runs ----

  /** A driver's write that gets through, one that fails, a change to the chip nobody asked for, a flush that gets n registers far. */
  datatype Op = Done(w: Intent) | Failed(w: Intent) | Corrupt(hw: File) | Flush(n: nat)

  function Step(c: Chip, op: Op): Chip {
    match op
    case Done(w) => Carry(c, w)
    case Failed(_) => c
    case Corrupt(f) => c.(hw := f)
    case Flush(n) => if n <= NUM_REGS then Flushed(c, n) else c
  }

  function Run(c: Chip, run: seq<Op>): Chip {
    if run == [] then c else Step(Run(c, run[..|run| - 1]), run[|run| - 1])
  }

  /** The driver's own writes that got through. */
  function Intended(run: seq<Op>): seq<Intent> {
    if run == [] then []
    else
      var op := run[|run| - 1];
      Intended(run[..|run| - 1]) + if op.Done? then [op.w] else []
  }

  /** The shadow is the tracked part of f. */
  ghost predicate Remembers(c: Chip, f: File) {
    forall r: Address | InRange(r) :: c.shadow[r - REG_START] == f[r]
  }

  lemma StepRemembers(c: Chip, f: File, op: Op)
    requires c.shadowed && Remembers(c, f)
    ensures Step(c, op).shadowed && Remembers(Step(c, op), if op.Done? then Put(f, op.w) else f)
  {
    if op.Flush? && op.n <= NUM_REGS {
      FlushedIs(c, op.n);
    }
  }

  /**
   Over any run, with failed writes, partial flushes and corruption of the chip anywhere in it,
   the shadow of a chip that started coherent is what the driver's successful writes alone make
   of the registers.
   */
  lemma {:induction false} ShadowRemembers(c: Chip, run: seq<Op>)
    requires c.shadowed && Coherent(c)
    ensures Run(c, run).shadowed && Remembers(Run(c, run), PutAll(c.hw, Intended(run)))
  {
    if run == [] {
      assert forall r: Address | InRange(r) :: Tracked(c, r);
    } else {
      var init, op := run[..|run| - 1], run[|run| - 1];
      ShadowRemembers(c, init);
      StepRemembers(Run(c, init), PutAll(c.hw, Intended(init)), op);
      if op.Done? {
        PutAllSnoc(c.hw, Intended(init), op.w);
      } else {
        assert Intended(run) == Intended(init);
      }
    }
  }

  /** Without corruption the chip keeps up with the shadow, however many writes fail. */
  lemma {:induction false} CoherentWithoutCorruption(c: Chip, run: seq<Op>)
    requires Coherent(c) && forall k | 0 <= k < |run| :: run[k].Done? || run[k].Failed?
    ensures Coherent(Run(c, run)) && Run(c, run).hw == PutAll(c.hw, Intended(run))
  {
    if run != [] {
      var init, op := run[..|run| - 1], run[|run| - 1];
      CoherentWithoutCorruption(c, init);
      if op.Done? {
        CarryIsPut(Run(c, init), op.w);
        PutAllSnoc(c.hw, Intended(init), op.w);
      } else {
        assert Intended(run) == Intended(init);
      }
    }
  }

  /** A completed flush undoes all corruption of the tracked registers: they are what the driver's writes made of them. */
  lemma FlushUndoesCorruption(c: Chip, run: seq<Op>)
    requires c.shadowed && Coherent(c)
    ensures var d := Run(c, run + [Flush(NUM_REGS)]);
            Coherent(d) && forall r: Address | InRange(r) :: d.hw[r] == PutAll(c.hw, Intended(run))[r]
  {
    assert (run + [Flush(NUM_REGS)])[..|run|] == run;
    ShadowRemembers(c, run);
    FlushedIs(Run(c, run), NUM_REGS);
  }
}
