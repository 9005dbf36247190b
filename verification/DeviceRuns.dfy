/**
 Runs of tuner operations on the chip as the driver sees it: every write worked out from the
 shadow, any call cut short by a failed transfer, registers corrupted between calls, and resets
 that restore them from the shadow.
 */
module DeviceRuns {
  import opened Words
  import opened RegisterFile
  import opened Synthesizer
  import opened TuningPlan
  import opened Shadow

  // ---- Without corruption ----

  function RunChip(c: Chip, run: seq<Call>): Chip
    decreases |run|
  {
    if run == [] then c else RunChip(CarryAll(c, Made(run[0])), run[1..])
  }

  /** On a coherent chip the shadow-based run is the run on the bare registers, and coherence lasts. */
  lemma {:induction false} RunChipIsRunFile(c: Chip, run: seq<Call>)
    requires Coherent(c)
    ensures Coherent(RunChip(c, run)) && RunChip(c, run).hw == RunFile(c.hw, run) && RunChip(c, run).shadowed == c.shadowed
    decreases |run|
  {
    if run != [] {
      CarryAllIsPutAll(c, Made(run[0]));
      RunChipIsRunFile(CarryAll(c, Made(run[0])), run[1..]);
    }
  }

  /** Two coherent chips that agree on gain and filter bits still do after a run on one and the run without its retunes on the other. */
  lemma RetunesAreInvisibleOnChip(c: Chip, d: Chip, run: seq<Call>, r: Address, mask: byte)
    requires Coherent(c) && Coherent(d) && GainOrFilterBits(r, mask) && Agree(c.hw, d.hw, r, mask)
    ensures Agree(RunChip(c, run).hw, RunChip(d, WithoutRetunes(run)).hw, r, mask)
  {
    RunChipIsRunFile(c, run);
    RunChipIsRunFile(d, WithoutRetunes(run));
    RetunesAreInvisibleToGains(c.hw, d.hw, run, r, mask);
  }

  /** A completed retune of a coherent chip, and any gain and bandwidth calls after it, failed or not, leave it coherent and tuned. */
  lemma CommittedRetuneStaysTuned(c: Chip, lo: nat, ref: nat, escalated: bool, run: seq<Call>)
    requires Coherent(c) && Tunable(lo / 1000) && 0 < ref < 0x8000 && NoRetune(run)
    ensures var g := RunChip(CarryAll(c, FreqWrites(lo, ref, escalated)), run); Coherent(g) && Tuned(g.hw, lo, ref)
    ensures ref >= 6581 ==> StepsFit(lo / 1000, ref)
  {
    CarryAllIsPutAll(c, FreqWrites(lo, ref, escalated));
    RunChipIsRunFile(CarryAll(c, FreqWrites(lo, ref, escalated)), run);
    TunedAndStaysTuned(c.hw, lo, ref, escalated, run);
  }

  // ---- With corruption ----

  /** A call, a change to the registers that nobody asked for, or a reset that gets n registers far. */
  datatype Event = Called(call: Call) | Corrupted(hw: File) | WasReset(n: nat)

  function Happen(c: Chip, e: Event): Chip {
    match e
    case Called(call) => CarryAll(c, Made(call))
    case Corrupted(f) => c.(hw := f)
    case WasReset(n) => if n <= NUM_REGS then Flushed(c, n) else c
  }

  function RunEvents(c: Chip, es: seq<Event>): Chip
    decreases |es|
  {
    if es == [] then c else RunEvents(Happen(c, es[0]), es[1..])
  }

  function Calls(es: seq<Event>): seq<Call> {
    if es == [] then [] else (if es[0].Called? then [es[0].call] else []) + Calls(es[1..])
  }

  lemma {:induction false} CarryAllRemembers(c: Chip, f: File, ws: seq<Intent>)
    requires c.shadowed && Remembers(c, f)
    ensures CarryAll(c, ws).shadowed && Remembers(CarryAll(c, ws), PutAll(f, ws))
  {
    if ws != [] {
      CarryAllRemembers(c, f, ws[..|ws| - 1]);
      StepRemembers(CarryAll(c, ws[..|ws| - 1]), PutAll(f, ws[..|ws| - 1]), Shadow.Done(ws[|ws| - 1]));
    }
  }

  lemma HappenRemembers(c: Chip, f: File, e: Event)
    requires c.shadowed && Remembers(c, f)
    ensures Happen(c, e).shadowed && Remembers(Happen(c, e), if e.Called? then Effect(f, e.call) else f)
  {
    match e
    case Called(call) => CarryAllRemembers(c, f, Made(call));
    case Corrupted(hw) => StepRemembers(c, f, Shadow.Corrupt(hw));
    case WasReset(n) => StepRemembers(c, f, Shadow.Flush(n));
  }

  /** Through corruption and resets the shadow remembers what the calls alone would have made of the registers. */
  lemma {:induction false} ShadowRemembersCalls(c: Chip, f: File, es: seq<Event>)
    requires c.shadowed && Remembers(c, f)
    ensures RunEvents(c, es).shadowed && Remembers(RunEvents(c, es), RunFile(f, Calls(es)))
    decreases |es|
  {
    if es != [] {
      var e := es[0];
      HappenRemembers(c, f, e);
      if e.Called? {
        RunOn(f, e.call, Calls(es[1..]));
        ShadowRemembersCalls(Happen(c, e), Effect(f, e.call), es[1..]);
      } else {
        assert Calls(es) == Calls(es[1..]);
        ShadowRemembersCalls(Happen(c, e), f, es[1..]);
      }
    }
  }

  lemma CoherentRemembers(c: Chip)
    requires c.shadowed && Coherent(c)
    ensures Remembers(c, c.hw)
  {
    assert forall r: Address | InRange(r) :: Tracked(c, r);
  }

  /** A complete reset after any such run puts what the calls alone would have left into every tracked register. */
  lemma ResetRestoresCalls(c: Chip, es: seq<Event>)
    requires c.shadowed && Coherent(c)
    ensures var d := Flushed(RunEvents(c, es), NUM_REGS);
            Coherent(d) && forall r: Address | InRange(r) :: d.hw[r] == RunFile(c.hw, Calls(es))[r]
  {
    CoherentRemembers(c);
    ShadowRemembersCalls(c, c.hw, es);
    FlushedIs(RunEvents(c, es), NUM_REGS);
  }

  /** All that Tuned looks at is tracked. */
  lemma TunedIsTracked(f: File, g: File, lo: nat, ref: nat)
    requires 0 < ref && Tuned(f, lo, ref) && forall r: Address | InRange(r) :: g[r] == f[r]
    ensures Tuned(g, lo, ref)
  {
    assert DecodeFile(g) == DecodeFile(f);
  }

  /**
   Whatever corrupts the registers after a completed retune, between and after gain and bandwidth
   calls and resets that fail half-way, one reset that succeeds leaves the chip tuned again.
   */
  lemma ResetBringsTuningBack(c: Chip, lo: nat, ref: nat, escalated: bool, es: seq<Event>)
    requires c.shadowed && Coherent(c) && Tunable(lo / 1000) && 0 < ref < 0x8000 && NoRetune(Calls(es))
    ensures var d := Flushed(RunEvents(CarryAll(c, FreqWrites(lo, ref, escalated)), es), NUM_REGS);
            Coherent(d) && Tuned(d.hw, lo, ref)
    ensures ref >= 6581 ==> StepsFit(lo / 1000, ref)
  {
    var c1 := CarryAll(c, FreqWrites(lo, ref, escalated));
    CarryAllIsPutAll(c, FreqWrites(lo, ref, escalated));
    ResetRestoresCalls(c1, es);
    TunedAndStaysTuned(c.hw, lo, ref, escalated, Calls(es));
    TunedIsTracked(RunFile(c1.hw, Calls(es)), Flushed(RunEvents(c1, es), NUM_REGS).hw, lo, ref);
  }
}
