/**
 The streaming URBs: which are in flight, who knows about it, and what keeps a drained pipeline
 from going silent. A call of the driver is one or more steps of the state below; the kernel
 gives back only URBs it holds, in any order.
 */
module UsbPipeline {
  import opened Words

  // ---- Counting flags ----

  function Count(flags: seq<bool>): nat {
    if flags == [] then 0 else Count(flags[..|flags| - 1]) + if flags[|flags| - 1] then 1 else 0
  }

  lemma {:induction false} CountUpdate(flags: seq<bool>, i: nat, b: bool)
    requires i < |flags|
    ensures Count(flags[i := b]) + (if flags[i] then 1 else 0) == Count(flags) + if b then 1 else 0
  {
    var n := |flags| - 1;
    if i < n {
      assert flags[i := b][..n] == flags[..n][i := b];
      CountUpdate(flags[..n], i, b);
    } else {
      assert flags[i := b][..n] == flags[..n];
    }
  }

  lemma {:induction false} CountBounds(flags: seq<bool>)
    ensures Count(flags) <= |flags|
    ensures Count(flags) == |flags| <==> forall i | 0 <= i < |flags| :: flags[i]
    ensures Count(flags) == 0 <==> forall i | 0 <= i < |flags| :: !flags[i]
  {
    if flags != [] {
      var n := |flags| - 1;
      CountBounds(flags[..n]);
      assert forall i | 0 <= i < n :: flags[i] == flags[..n][i];
    }
  }

  // ---- State and steps ----

  /** `flags` is the driver's belief about each URB, `kernel` the truth; `harvests` counts reaps. */
  datatype State = State(
    flags: seq<bool>, kernel: seq<bool>, submitted: nat, completed: nat, dropped: nat, harvests: nat,
    backpressure: bool, cancelled: bool, sequence: nat)

  function Submit(s: State, i: nat): State
    requires i < |s.flags| == |s.kernel|
  {
    s.(flags := s.flags[i := true], kernel := s.kernel[i := true], submitted := s.submitted + 1,
       backpressure := s.submitted + 1 >= |s.flags|)
  }

  /** Submissions of the first n URBs. */
  function SubmitFirst(s: State, n: nat): (t: State)
    requires n <= |s.flags| == |s.kernel|
    ensures |t.flags| == |t.kernel| == |s.flags| && t.flags[n..] == s.flags[n..]
  {
    if n == 0 then s else Submit(SubmitFirst(s, n - 1), n - 1)
  }

  function Reap(s: State, i: nat, good: bool): State
    requires i < |s.flags| == |s.kernel|
  {
    s.(flags := s.flags[i := false], kernel := s.kernel[i := false],
       submitted := if s.submitted > 0 then s.submitted - 1 else 0,
       backpressure := false, harvests := s.harvests + 1,
       completed := if good then U32(s.completed + 1) else s.completed,
       dropped := if good then s.dropped else U32(s.dropped + 1))
  }

  /**
   One harvested URB: whether it carries data, whether another thread asks to stop before the
   first or the second look at the cancel flag, and whether the kernel takes it back.
   */
  datatype Harvest = Harvest(urb: nat, good: bool, stopFirst: bool, stopThen: bool, accepted: bool)

  predicate Possible(s: State, h: Harvest) {
    |s.flags| == |s.kernel| && h.urb < |s.kernel| && s.kernel[h.urb]
  }

  /** Unless told to stop, offer the URB to the kernel again; give up if it is refused and nothing else is in flight. */
  function Resubmit(d: State, h: Harvest): State
    requires h.urb < |d.flags| == |d.kernel|
  {
    if h.stopThen then d.(cancelled := true)
    else if h.accepted then Submit(d, h.urb)
    else d.(cancelled := d.submitted == 0)
  }

  /** What becomes of a URB just reaped: nothing if the stream is cancelled, else deliver and resubmit. */
  function Settle(r: State, h: Harvest): State
    requires h.urb < |r.flags| == |r.kernel|
  {
    if r.cancelled || h.stopFirst then r.(cancelled := true)
    else Resubmit(if h.good then r.(sequence := U32(r.sequence + 1)) else r, h)
  }

  /** One pass of the service loop. */
  function Service(s: State, h: Harvest): State
    requires Possible(s, h)
  {
    Settle(Reap(s, h.urb, h.good), h)
  }

  /** The URB's buffer is handed to the user, under this sequence number. */
  function Delivered(s: State, h: Harvest): seq<nat> {
    if s.cancelled || h.stopFirst || !h.good then [] else [s.sequence]
  }

  predicate Inv(s: State) {
    && s.flags == s.kernel
    && s.submitted == Count(s.flags)
    && U32(s.completed + s.dropped) == U32(s.harvests)
  }

  lemma ReapKeepsInv(s: State, i: nat, good: bool)
    requires Inv(s) && i < |s.kernel| && s.kernel[i]
    ensures Inv(Reap(s, i, good)) && Reap(s, i, good).submitted == s.submitted - 1
  {
    CountUpdate(s.flags, i, false);
    OneMoreCounted(s.completed, s.dropped, s.harvests);
  }

  lemma OneMoreCounted(completed: nat, dropped: nat, harvests: nat)
    requires U32(completed + dropped) == U32(harvests)
    ensures U32(U32(completed + 1) + dropped) == U32(completed + U32(dropped + 1)) == U32(harvests + 1)
  {
    U32Left(completed + dropped, 1);
    U32Left(harvests, 1);
    U32Left(completed + 1, dropped);
    U32Left(dropped + 1, completed);
  }

  lemma SubmitKeepsInv(s: State, i: nat)
    requires Inv(s) && i < |s.flags| && !s.flags[i]
    ensures Inv(Submit(s, i))
    ensures Submit(s, i).backpressure <==> Count(Submit(s, i).flags) == |s.flags|
  {
    CountUpdate(s.flags, i, true);
    CountBounds(Submit(s, i).flags);
  }

  /** The books are right, and exactly the first n URBs are in flight. */
  ghost predicate FilledTo(s: State, n: nat) {
    Inv(s) && s.submitted == n && forall k | 0 <= k < |s.flags| :: s.flags[k] <==> k < n
  }

  lemma SubmitNext(s: State, n: nat)
    requires FilledTo(s, n) && n < |s.flags|
    ensures FilledTo(Submit(s, n), n + 1) && (Submit(s, n).backpressure <==> n + 1 == |s.flags|)
  {
    SubmitKeepsInv(s, n);
  }

  /** From an empty pipeline, the first n are in flight and counted, and back-pressure means all of them are. */
  lemma {:induction false} FillingUp(s: State, n: nat)
    requires Inv(s) && s.submitted == 0 && n <= |s.flags|
    ensures FilledTo(SubmitFirst(s, n), n)
    ensures n > 0 ==> (SubmitFirst(s, n).backpressure <==> n == |s.flags|)
  {
    if n == 0 {
      CountBounds(s.flags);
    } else {
      FillingUp(s, n - 1);
      SubmitNext(SubmitFirst(s, n - 1), n - 1);
    }
  }

  /** Accounting survives a service step, which never ends with nothing in flight and nobody told. */
  lemma ServiceKeepsInv(s: State, h: Harvest)
    requires Inv(s) && Possible(s, h)
    ensures var t := Service(s, h);
            Inv(t) && t.harvests == s.harvests + 1 && |t.flags| == |s.flags| && (t.submitted > 0 || t.cancelled)
  {
    ReapKeepsInv(s, h.urb, h.good);
    SettleKeepsInv(Reap(s, h.urb, h.good), h);
  }

  lemma SettleKeepsInv(r: State, h: Harvest)
    requires Inv(r) && h.urb < |r.flags| && !r.flags[h.urb]
    ensures var t := Settle(r, h);
            Inv(t) && t.harvests == r.harvests && |t.flags| == |r.flags| && (t.submitted > 0 || t.cancelled)
  {
    SubmitKeepsInv(if h.good then r.(sequence := U32(r.sequence + 1)) else r, h.urb);
  }

  // ---- Runs ----

  /** Every URB harvested is one the kernel holds at that moment. */
  predicate Feasible(s: State, run: seq<Harvest>)
    decreases |run|
  {
    run == [] || (Possible(s, run[0]) && Feasible(Service(s, run[0]), run[1..]))
  }

  function Run(s: State, run: seq<Harvest>): State
    requires Feasible(s, run)
    decreases |run|
  {
    if run == [] then s else Run(Service(s, run[0]), run[1..])
  }

  /** Sequence numbers handed to the user over a run. */
  function Deliveries(s: State, run: seq<Harvest>): seq<nat>
    requires Feasible(s, run)
    decreases |run|
  {
    if run == [] then [] else Delivered(s, run[0]) + Deliveries(Service(s, run[0]), run[1..])
  }

  /** The kernel would not take the URB back while the stream was on. */
  predicate Refused(s: State, h: Harvest) {
    !s.cancelled && !h.stopFirst && !h.stopThen && !h.accepted
  }

  function Refusals(s: State, run: seq<Harvest>): nat
    requires Feasible(s, run)
    decreases |run|
  {
    if run == [] then 0 else (if Refused(s, run[0]) then 1 else 0) + Refusals(Service(s, run[0]), run[1..])
  }

  /** Nobody outside the service loop asks to stop. */
  predicate Undisturbed(run: seq<Harvest>) {
    forall k | 0 <= k < |run| :: !run[k].stopFirst && !run[k].stopThen
  }

  /** Over every run the counters are right, and a pipeline once in use is never drained in silence. */
  lemma {:induction false} RunKeepsInv(s: State, run: seq<Harvest>)
    requires Inv(s) && Feasible(s, run) && (s.submitted > 0 || s.cancelled)
    ensures var t := Run(s, run);
            && Inv(t) && t.harvests == s.harvests + |run|
            && (t.submitted > 0 || t.cancelled)
    decreases |run|
  {
    if run != [] {
      ServiceKeepsInv(s, run[0]);
      RunKeepsInv(Service(s, run[0]), run[1..]);
    }
  }

  /**
   No URB is lost track of: with nobody asking to stop, what is in flight and what was refused
   add up to what was in flight at the start, and the stream gives up exactly when every one of
   them has been refused.
   */
  lemma {:induction false} InFlightPlusRefused(s: State, run: seq<Harvest>)
    requires Inv(s) && Feasible(s, run) && Undisturbed(run) && !s.cancelled && s.submitted > 0
    ensures var t := Run(s, run);
            && t.submitted + Refusals(s, run) == s.submitted
            && (t.cancelled <==> Refusals(s, run) == s.submitted)
    decreases |run|
  {
    if run != [] {
      var t := Service(s, run[0]);
      ServiceKeepsInv(s, run[0]);
      ReapKeepsInv(s, run[0].urb, run[0].good);
      if t.cancelled {
        CountBounds(t.kernel);
        assert run[1..] == [];
      } else {
        InFlightPlusRefused(t, run[1..]);
      }
    }
  }

  /** Harvested URBs that carry data. */
  function Goods(run: seq<Harvest>): nat {
    if run == [] then 0 else (if run[0].good then 1 else 0) + Goods(run[1..])
  }

  lemma ServiceClassifies(s: State, h: Harvest)
    requires Possible(s, h)
    ensures var t := Service(s, h);
            if h.good then t.completed == U32(s.completed + 1) && t.dropped == s.dropped
            else t.completed == s.completed && t.dropped == U32(s.dropped + 1)
  {
  }

  /** URBs with data are counted as completed and the others as dropped, whatever else happens to them. */
  lemma {:induction false} CountedByOutcome(s: State, run: seq<Harvest>)
    requires Feasible(s, run)
    ensures Goods(run) <= |run|
    ensures var t := Run(s, run);
            U32(t.completed) == U32(s.completed + Goods(run)) && U32(t.dropped) == U32(s.dropped + (|run| - Goods(run)))
    decreases |run|
  {
    if run != [] {
      ServiceClassifies(s, run[0]);
      CountedByOutcome(Service(s, run[0]), run[1..]);
      U32Left(s.completed + 1, Goods(run[1..]));
      U32Left(s.dropped + 1, |run| - 1 - Goods(run[1..]));
    }
  }

  /** Once cancelled, a pipeline hands nothing out and nothing back: every harvest empties it by one. */
  lemma {:induction false} CancelledDrains(s: State, run: seq<Harvest>)
    requires Inv(s) && Feasible(s, run) && s.cancelled
    ensures Deliveries(s, run) == [] && Refusals(s, run) == 0
    ensures var t := Run(s, run); t.cancelled && t.submitted + |run| == s.submitted && t.sequence == s.sequence
    decreases |run|
  {
    if run != [] {
      ServiceKeepsInv(s, run[0]);
      ReapKeepsInv(s, run[0].urb, run[0].good);
      CancelledDrains(Service(s, run[0]), run[1..]);
    }
  }

  /** With nobody asking to stop, every URB that carries data reaches the user. */
  lemma {:induction false} AllDataIsDelivered(s: State, run: seq<Harvest>)
    requires Inv(s) && Feasible(s, run) && Undisturbed(run) && !s.cancelled && s.submitted > 0
    ensures |Deliveries(s, run)| == Goods(run)
    decreases |run|
  {
    if run != [] {
      var t := Service(s, run[0]);
      ServiceKeepsInv(s, run[0]);
      ReapKeepsInv(s, run[0].urb, run[0].good);
      if t.cancelled {
        CountBounds(t.kernel);
        assert run[1..] == [];
      } else {
        AllDataIsDelivered(t, run[1..]);
      }
    }
  }

  /** After any servicing, back-pressure means that every URB is in flight. */
  lemma {:induction false} BackpressureMeansFull(s: State, run: seq<Harvest>)
    requires Inv(s) && Feasible(s, run) && run != []
    ensures var t := Run(s, run); t.backpressure <==> t.submitted == |t.flags|
    decreases |run|
  {
    var h, t := run[0], Service(s, run[0]);
    ServiceKeepsInv(s, h);
    if run[1..] == [] {
      assert Run(t, run[1..]) == t;
      var r := Reap(s, h.urb, h.good);
      ReapKeepsInv(s, h.urb, h.good);
      CountBounds(s.flags);
      CountBounds(r.flags);
    } else {
      BackpressureMeansFull(t, run[1..]);
    }
  }

  /** Numbers from `first` on, one apart, in 32 bits. */
  predicate Consecutive(numbers: seq<nat>, first: nat) {
    forall k | 0 <= k < |numbers| :: numbers[k] == U32(first + k)
  }

  lemma ServiceCounts(s: State, h: Harvest)
    requires Possible(s, h) && s.sequence < 0x1_0000_0000
    ensures if Delivered(s, h) == [] then Service(s, h).sequence == s.sequence
            else Delivered(s, h) == [s.sequence] && Service(s, h).sequence == U32(s.sequence + 1)
  {
  }

  /**
   The sequence number counts deliveries and nothing else: over every run the numbers handed out
   are consecutive, so URBs dropped in between leave no gap in them.
   */
  lemma {:induction false} SequenceHidesDrops(s: State, run: seq<Harvest>)
    requires Feasible(s, run) && s.sequence < 0x1_0000_0000
    ensures Consecutive(Deliveries(s, run), s.sequence)
    ensures Run(s, run).sequence == U32(s.sequence + |Deliveries(s, run)|)
    decreases |run|
  {
    if run != [] {
      ServiceCounts(s, run[0]);
      SequenceHidesDrops(Service(s, run[0]), run[1..]);
      var rest := Deliveries(Service(s, run[0]), run[1..]);
      if Delivered(s, run[0]) == [] {
        assert [] + rest == rest;
      } else {
        Shifted(rest, s.sequence);
        U32Left(s.sequence + 1, |rest|);
      }
    }
  }

  lemma Shifted(rest: seq<nat>, first: nat)
    requires first < 0x1_0000_0000 && Consecutive(rest, U32(first + 1))
    ensures Consecutive([first] + rest, first)
  {
    var all := [first] + rest;
    forall k | 0 <= k < |all|
      ensures all[k] == U32(first + k)
    {
      if k > 0 {
        U32Left(first + 1, k - 1);
        assert all[k] == rest[k - 1];
      }
    }
  }

  lemma {:induction false} RunAppend(s: State, run: seq<Harvest>, h: Harvest)
    requires Feasible(s, run) && Possible(Run(s, run), h)
    ensures Feasible(s, run + [h]) && Run(s, run + [h]) == Service(Run(s, run), h)
    ensures Deliveries(s, run + [h]) == Deliveries(s, run) + Delivered(Run(s, run), h)
    ensures Refusals(s, run + [h]) == Refusals(s, run) + if Refused(Run(s, run), h) then 1 else 0
    decreases |run|
  {
    if run == [] {
      assert run + [h] == [h] && [h][1..] == [];
    } else {
      assert (run + [h])[0] == run[0] && (run + [h])[1..] == run[1..] + [h];
      RunAppend(Service(s, run[0]), run[1..], h);
    }
  }

  // ---- Cancelling ----

  /** What one reap leaves of the flags; None is a reap that failed. */
  function Taken(flags: seq<bool>, pick: Option<nat>): seq<bool> {
    if pick.Some? && pick.value < |flags| then flags[pick.value := false] else flags
  }

  /**
   The single pass over the arena: one reap at every index still flagged when it is reached. The
   result is what the kernel still holds; it need not have agreed with the flags.
   */
  function Pass(flags: seq<bool>, kernel: seq<bool>, i: nat, picks: seq<Option<nat>>): (r: seq<bool>)
    requires |picks| == |flags| == |kernel| && i <= |flags|
    ensures |r| == |kernel|
    decreases |flags| - i
  {
    if i == |flags| then kernel
    else if flags[i] then Pass(Taken(flags, picks[i]), Taken(kernel, picks[i]), i + 1, picks)
    else Pass(flags, kernel, i + 1, picks)
  }

  /** Every reap fails or returns a URB the kernel holds. */
  predicate PicksHeld(flags: seq<bool>, kernel: seq<bool>, i: nat, picks: seq<Option<nat>>)
    requires |picks| == |flags| == |kernel| && i <= |flags|
    decreases |flags| - i
  {
    i == |flags| ||
    (if flags[i] then
       (picks[i].Some? ==> picks[i].value < |kernel| && kernel[picks[i].value])
       && PicksHeld(Taken(flags, picks[i]), Taken(kernel, picks[i]), i + 1, picks)
     else PicksHeld(flags, kernel, i + 1, picks))
  }

  /** Indices still flagged when reached: as often is the kernel asked. */
  function Visits(flags: seq<bool>, i: nat, picks: seq<Option<nat>>): nat
    requires |picks| == |flags| && i <= |flags|
    decreases |flags| - i
  {
    if i == |flags| then 0
    else if flags[i] then 1 + Visits(Taken(flags, picks[i]), i + 1, picks)
    else Visits(flags, i + 1, picks)
  }

  /** Reaps that failed, or returned a URB further on in the arena. */
  function Misses(flags: seq<bool>, i: nat, picks: seq<Option<nat>>): nat
    requires |picks| == |flags| && i <= |flags|
    decreases |flags| - i
  {
    if i == |flags| then 0
    else if flags[i] then
      (if picks[i].Some? && picks[i].value <= i then 0 else 1) + Misses(Taken(flags, picks[i]), i + 1, picks)
    else Misses(flags, i + 1, picks)
  }

  /** With no flag up, as after any cancel, a pass asks for nothing and the kernel keeps what it has. */
  lemma {:induction false} NothingFlagged(flags: seq<bool>, kernel: seq<bool>, i: nat, picks: seq<Option<nat>>)
    requires |picks| == |flags| == |kernel| && i <= |flags| && forall k | i <= k < |flags| :: !flags[k]
    ensures Pass(flags, kernel, i, picks) == kernel && Visits(flags, i, picks) == 0
    decreases |flags| - i
  {
    if i < |flags| {
      NothingFlagged(flags, kernel, i + 1, picks);
    }
  }

  /** A visit adds one to what is left behind it unless it took something at or behind itself. */
  lemma VisitCounts(flags: seq<bool>, i: nat, pick: Option<nat>)
    requires i < |flags| && flags[i] && (pick.Some? ==> pick.value < |flags| && flags[pick.value])
    ensures Count(Taken(flags, pick)[..i + 1]) == Count(flags[..i]) + if pick.Some? && pick.value <= i then 0 else 1
  {
    var next := Taken(flags, pick);
    assert next[..i + 1][..i] == next[..i];
    if pick.Some? && pick.value < i {
      assert next[..i] == flags[..i][pick.value := false];
      CountUpdate(flags[..i], pick.value, false);
    } else {
      assert next[..i] == flags[..i];
    }
  }

  /** One URB stays with the kernel for every reap that failed or came out of array order. */
  lemma {:induction false} PassLeavesMisses(flags: seq<bool>, i: nat, picks: seq<Option<nat>>)
    requires |picks| == |flags| && i <= |flags| && PicksHeld(flags, flags, i, picks)
    ensures Count(Pass(flags, flags, i, picks)) == Count(flags[..i]) + Misses(flags, i, picks)
    decreases |flags| - i
  {
    if i == |flags| {
      assert flags[..i] == flags;
    } else if flags[i] {
      PassLeavesMisses(Taken(flags, picks[i]), i + 1, picks);
      VisitCounts(flags, i, picks[i]);
    } else {
      PassLeavesMisses(flags, i + 1, picks);
      assert flags[..i + 1][..i] == flags[..i];
    }
  }

  /** Every reap returns the URB of the index it was made at. */
  predicate InArrayOrder(flags: seq<bool>, picks: seq<Option<nat>>)
    requires |picks| == |flags|
  {
    forall i | 0 <= i < |flags| && flags[i] :: picks[i] == Some(i)
  }

  /** A cancel takes back every URB exactly when they all come back in array order. */
  lemma AllReapedIff(flags: seq<bool>, picks: seq<Option<nat>>)
    requires |picks| == |flags| && PicksHeld(flags, flags, 0, picks)
    ensures Count(Pass(flags, flags, 0, picks)) == 0 <==> InArrayOrder(flags, picks)
  {
    PassLeavesMisses(flags, 0, picks);
    MissesIff(flags, 0, picks);
  }

  /** What a cancel of agreeing books leaves with the kernel: as many URBs as it missed, none exactly in array order. */
  lemma WhatCancelLeaves(flags: seq<bool>, picks: seq<Option<nat>>)
    requires |picks| == |flags| && PicksHeld(flags, flags, 0, picks)
    ensures var left := Pass(flags, flags, 0, picks);
            Count(left) == Misses(flags, 0, picks) && ((forall k | 0 <= k < |left| :: !left[k]) <==> InArrayOrder(flags, picks))
  {
    PassLeavesMisses(flags, 0, picks);
    assert Count(flags[..0]) == 0;
    AllReapedIff(flags, picks);
    CountBounds(Pass(flags, flags, 0, picks));
  }

  lemma {:induction false} MissesIff(flags: seq<bool>, i: nat, picks: seq<Option<nat>>)
    requires |picks| == |flags| && i <= |flags| && PicksHeld(flags, flags, i, picks)
    requires forall j | 0 <= j < i :: !flags[j]
    ensures Misses(flags, i, picks) == 0 <==> forall j | i <= j < |flags| && flags[j] :: picks[j] == Some(j)
    decreases |flags| - i
  {
    if i < |flags| {
      if flags[i] {
        if picks[i] == Some(i) {
          MissesIff(Taken(flags, picks[i]), i + 1, picks);
        }
      } else {
        MissesIff(flags, i + 1, picks);
      }
    }
  }

  /** In array order the kernel is asked once for each URB in flight. */
  lemma {:induction false} InOrderOneReapEach(flags: seq<bool>, i: nat, picks: seq<Option<nat>>)
    requires |picks| == |flags| && i <= |flags| && InArrayOrder(flags, picks)
    requires forall j | 0 <= j < i :: !flags[j]
    ensures Visits(flags, i, picks) == Count(flags)
    decreases |flags| - i
  {
    if i == |flags| {
      CountBounds(flags);
    } else if flags[i] {
      CountUpdate(flags, i, false);
      InOrderOneReapEach(Taken(flags, picks[i]), i + 1, picks);
    } else {
      InOrderOneReapEach(flags, i + 1, picks);
    }
  }

  /** Two URBs coming back in the wrong order: the pass reaps one of them. */
  lemma OutOfOrderLeavesOne()
    ensures var flags, picks := [true, true], [Some(1), None];
            PicksHeld(flags, flags, 0, picks) && Pass(flags, flags, 0, picks) == [true, false]
  {
    var flags: seq<bool>, picks: seq<Option<nat>> := [true, true], [Some(1), None];
    assert Taken(flags, picks[0]) == [true, false];
    assert Pass([true, false], [true, false], 1, picks) == Pass([true, false], [true, false], 2, picks);
  }

  // ---- The driver's object ----

  class Pipeline {
    const depth: nat
    const flags: array<bool>
    const kernel: array<bool>
    /** The arena has not been freed. */
    var arena: bool
    /** Completions that the kernel is going to report before it next has none ready. */
    var backlog: nat
    var submitted: nat
    var completed: nat
    var dropped: nat
    var backpressure: bool
    var cancelRequested: bool
    var sequence: nat
    ghost var harvests: nat
    /** Times the kernel has been asked for a completion, and submissions it has refused. */
    ghost var asked: nat
    ghost var refused: nat

    ghost predicate Shape()
    {
      flags.Length == kernel.Length == depth && flags != kernel
    }

    ghost function Abs(): State
      requires Shape()
      reads this, flags, kernel
    {
      State(flags[..], kernel[..], submitted, completed, dropped, harvests, backpressure, cancelRequested, sequence)
    }

    ghost predicate Valid()
      reads this, flags, kernel
    {
      Shape() && Inv(Abs()) && sequence < 0x1_0000_0000
    }

    /** urb_alloc for a stream about to start: nothing in flight. */
    constructor (depth: nat)
      ensures Valid() && fresh(flags) && fresh(kernel) && this.depth == depth
      ensures submitted == completed == dropped == sequence == 0 && !backpressure && !cancelRequested && arena
    {
      this.depth := depth;
      flags := new bool[depth](_ => false);
      kernel := new bool[depth](_ => false);
      submitted, completed, dropped, sequence := 0, 0, 0, 0;
      harvests, asked, refused := 0, 0, 0;
      backpressure, cancelRequested, arena, backlog := false, false, true, 0;
      new;
      CountBounds(flags[..]);
    }

    /** The kernel takes a URB, or does not. */
    method KernelSubmit(i: nat) returns (taken: bool)
      requires Shape() && i < depth
      modifies this`refused, kernel
      ensures kernel[..] == if taken then old(kernel[..])[i := true] else old(kernel[..])
      ensures refused == old(refused) + if taken then 0 else 1
    {
      taken := *;
      if taken {
        kernel[i] := true;
      } else {
        refused := refused + 1;
      }
    }

    /** The kernel has nothing ready, or gives back any one URB it holds, with data or without. */
    method KernelReap() returns (r: Option<nat>, good: bool)
      requires Shape()
      modifies this`asked, kernel
      ensures asked == old(asked) + 1 && (r.Some? ==> r.value < depth && old(kernel[r.value]))
      ensures kernel[..] == Taken(old(kernel[..]), r)
    {
      asked := asked + 1;
      var i: int := *;
      good := *;
      if !(0 <= i < depth) || !kernel[i] {
        return None, good;
      }
      kernel[i] := false;
      r := Some(i);
    }

    /** The same without waiting, which ends with the backlog at the latest. */
    method KernelReapReady() returns (r: Option<nat>, good: bool)
      requires Shape()
      modifies this`asked, this`backlog, kernel
      ensures asked == old(asked) + 1 && (r.Some? ==> r.value < depth && old(kernel[r.value]))
      ensures kernel[..] == Taken(old(kernel[..]), r) && backlog <= old(backlog) && (r.Some? ==> backlog < old(backlog))
    {
      r, good := None, false;
      if backlog == 0 {
        asked := asked + 1;
        return;
      }
      r, good := KernelReap();
      backlog := backlog - 1;
    }

    /** A URB in flight is refused; otherwise it is the kernel's decision. */
    method UrbSubmit(i: nat) returns (rc: Status)
      requires Valid() && i < depth
      modifies this, flags, kernel
      ensures Valid()
      ensures rc in {Ok, Busy, IoError} && (rc == Busy <==> old(flags[i]))
      ensures Abs() == if rc == Ok then Submit(old(Abs()), i) else old(Abs())
      ensures asked == old(asked) && refused == old(refused) + if rc == IoError then 1 else 0
      ensures backlog == old(backlog)
    {
      if flags[i] {
        return Busy;
      }
      SubmitKeepsInv(Abs(), i);
      var taken := KernelSubmit(i);
      if !taken {
        return IoError;
      }
      flags[i] := true;
      submitted := submitted + 1;
      backpressure := submitted >= depth;
      rc := Ok;
    }

    /** Submit in array order up to the first URB in flight already or refused by the kernel; those before it stay in flight. */
    method UrbSubmitAll() returns (rc: Status, ghost n: nat)
      requires Valid()
      modifies this, flags, kernel
      ensures Valid() && n <= depth && Abs() == SubmitFirst(old(Abs()), n)
      ensures rc in {Ok, Busy, IoError} && (rc == Ok <==> n == depth) && (rc == Busy <==> n < depth && old(flags[n]))
      ensures forall k | 0 <= k < n :: !old(flags[k])
      ensures refused == old(refused) + if rc == IoError then 1 else 0
    {
      rc, n := Ok, 0;
      ghost var start := Abs();
      for i := 0 to depth
        invariant Valid() && rc == Ok && n == i && Abs() == SubmitFirst(start, i)
        invariant refused == old(refused) && forall k | 0 <= k < i :: !start.flags[k]
      {
        assert flags[i] == Abs().flags[i..][0] == start.flags[i];
        rc := UrbSubmit(i);
        if rc != Ok {
          return;
        }
        n := i + 1;
      }
    }

    /** The books after a reap. */
    method Account(i: nat, good: bool)
      requires Shape() && i < depth
      modifies flags, this`submitted, this`backpressure, this`harvests, this`completed, this`dropped
      ensures flags[..] == old(flags[..])[i := false] && !backpressure && harvests == old(harvests) + 1
      ensures submitted == if old(submitted) > 0 then old(submitted) - 1 else 0
      ensures completed == if good then U32(old(completed) + 1) else old(completed)
      ensures dropped == if good then old(dropped) else U32(old(dropped) + 1)
    {
      flags[i] := false;
      if submitted > 0 {
        submitted := submitted - 1;
      }
      backpressure := false;
      harvests := harvests + 1;
      if good {
        completed := U32(completed + 1);
      } else {
        dropped := U32(dropped + 1);
      }
    }

    /** A non-blocking reap, with its accounting. */
    method UrbReap() returns (r: Option<nat>, good: bool)
      requires Valid()
      modifies this, flags, kernel
      ensures Valid() && asked == old(asked) + 1 && refused == old(refused)
      ensures r.None? ==> Abs() == old(Abs())
      ensures r.Some? ==> r.value < depth && old(kernel[r.value]) && Abs() == Reap(old(Abs()), r.value, good)
      ensures backlog <= old(backlog) && (r.Some? ==> backlog < old(backlog))
    {
      ghost var s := Abs();
      r, good := KernelReapReady();
      if r.None? {
        return;
      }
      assert s.kernel[r.value];
      Account(r.value, good);
      ReapKeepsInv(s, r.value, good);
      assert Abs() == Reap(s, r.value, good);
    }

    method ResubmitReaped(i: nat, good: bool) returns (ghost h: Harvest)
      requires Valid() && i < depth && !flags[i] && !cancelRequested
      modifies this, flags, kernel
      ensures Valid() && h.urb == i && h.good == good && !h.stopFirst
      ensures Abs() == Resubmit(old(Abs()), h)
      ensures asked == old(asked) && refused == old(refused) + if Refused(old(Abs()), h) then 1 else 0
      ensures backlog == old(backlog)
    {
      var stopThen: bool := *;
      h := Harvest(i, good, false, stopThen, false);
      cancelRequested := stopThen;
      if !cancelRequested {
        var rc := UrbSubmit(i);
        h := h.(accepted := rc == Ok);
        if rc != Ok && submitted == 0 {
          cancelRequested := true;
        }
      }
    }

    /** Deliver and resubmit a URB just reaped. */
    method SettleReaped(i: nat, good: bool) returns (ghost h: Harvest, delivered: seq<nat>)
      requires Valid() && i < depth && !flags[i]
      modifies this, flags, kernel
      ensures Valid() && h.urb == i && h.good == good
      ensures delivered == Delivered(old(Abs()), h) && Abs() == Settle(old(Abs()), h)
      ensures asked == old(asked) && refused == old(refused) + if Refused(old(Abs()), h) then 1 else 0
      ensures backlog == old(backlog)
    {
      var stopFirst: bool := *;
      h := Harvest(i, good, stopFirst, false, false);
      delivered := [];
      cancelRequested := cancelRequested || stopFirst;
      if cancelRequested {
        return;
      }
      if good {
        delivered := [sequence];
        sequence := U32(sequence + 1);
      }
      h := ResubmitReaped(i, good);
    }

    /** One completion, from reap to resubmission; None when nothing is ready. */
    method ServiceOne() returns (ghost h: Option<Harvest>, idle: bool, delivered: seq<nat>)
      requires Valid()
      modifies this, flags, kernel
      ensures Valid() && idle == h.None? && asked == old(asked) + 1
      ensures h.None? ==> Abs() == old(Abs()) && delivered == [] && refused == old(refused)
      ensures backlog <= old(backlog) && (h.Some? ==> backlog < old(backlog))
      ensures h.Some? ==> Possible(old(Abs()), h.value) && Abs() == Service(old(Abs()), h.value)
                          && delivered == Delivered(old(Abs()), h.value)
                          && refused == old(refused) + if Refused(old(Abs()), h.value) then 1 else 0
    {
      var u, good := UrbReap();
      if u.None? {
        return None, true, [];
      }
      ghost var done;
      done, delivered := SettleReaped(u.value, good);
      h, idle := Some(done), false;
    }

    /**
     Service completions until the kernel has none ready, however many that takes. What happens is
     a run of service steps, and a pipeline in use is not left drained with nobody told.
     */
    method ProcessDeviceUrbs() returns (ghost run: seq<Harvest>, delivered: seq<nat>)
      requires Valid()
      modifies this, flags, kernel
      ensures Valid() && asked == old(asked) + |run| + 1
      ensures Feasible(old(Abs()), run) && Abs() == Run(old(Abs()), run)
      ensures delivered == Deliveries(old(Abs()), run) && Consecutive(delivered, old(sequence))
      ensures refused == old(refused) + Refusals(old(Abs()), run)
      ensures old(submitted > 0 || cancelRequested) ==> submitted > 0 || cancelRequested
    {
      run, delivered := [], [];
      ghost var start := Abs();
      backlog := *;
      var idle := false;
      while !idle
        invariant Valid() && Feasible(start, run) && Abs() == Run(start, run)
        invariant delivered == Deliveries(start, run)
        invariant asked == old(asked) + |run| + (if idle then 1 else 0) && refused == old(refused) + Refusals(start, run)
        decreases backlog, !idle
      {
        ghost var h;
        var d;
        h, idle, d := ServiceOne();
        if !idle {
          RunAppend(start, run, h.value);
          run, delivered := run + [h.value], delivered + d;
        }
      }
      SequenceHidesDrops(start, run);
      if start.submitted > 0 || start.cancelled {
        RunKeepsInv(start, run);
      }
    }

    /** A blocking reap after a discard: it fails, or returns any URB the kernel holds. */
    method ReapDiscarded() returns (pick: Option<nat>)
      requires Shape()
      modifies this`submitted, this`asked, flags, kernel
      ensures asked == old(asked) + 1 && (pick.Some? ==> pick.value < depth && old(kernel[pick.value]))
      ensures flags[..] == Taken(old(flags[..]), pick) && kernel[..] == Taken(old(kernel[..]), pick)
    {
      var good;
      pick, good := KernelReap();
      if pick.Some? {
        flags[pick.value] := false;
        if submitted > 0 {
          submitted := submitted - 1;
        }
      }
    }

    /** The single pass: a reap at every index still flagged when it is reached. */
    method ReapPass() returns (ghost picks: seq<Option<nat>>)
      requires Shape()
      modifies this`submitted, this`asked, flags, kernel
      ensures |picks| == depth && PicksHeld(old(flags[..]), old(kernel[..]), 0, picks)
      ensures kernel[..] == Pass(old(flags[..]), old(kernel[..]), 0, picks)
      ensures asked == old(asked) + Visits(old(flags[..]), 0, picks)
    {
      ghost var start, held := flags[..], kernel[..];
      picks := [];
      PassStarts(start, held);
      for i := 0 to depth
        invariant |picks| == i && PassSoFar(start, held, picks, flags[..], kernel[..], asked - old(asked))
      {
        ghost var before, keeps, count := flags[..], kernel[..], asked - old(asked);
        var pick := None;
        if flags[i] {
          pick := ReapDiscarded();
        }
        PassStep(start, held, picks, before, keeps, count, pick);
        picks := picks + [pick];
      }
      PassDone(start, held, picks, flags[..], kernel[..], asked - old(asked));
    }

    method ForceClear()
      requires Shape()
      modifies this`submitted, flags
      ensures submitted == 0 && forall k | 0 <= k < depth :: !flags[k]
    {
      for i := 0 to depth
        invariant forall k | 0 <= k < i :: !flags[k]
      {
        flags[i] := false;
      }
      submitted := 0;
    }

    /** Discard and reap in one pass, then clear the books whatever the pass missed. */
    method CancelPass() returns (ghost picks: seq<Option<nat>>)
      requires Shape()
      modifies this`submitted, this`asked, flags, kernel
      ensures submitted == 0 && forall k | 0 <= k < depth :: !flags[k]
      ensures |picks| == depth && PicksHeld(old(flags[..]), old(kernel[..]), 0, picks)
      ensures kernel[..] == Pass(old(flags[..]), old(kernel[..]), 0, picks)
      ensures asked == old(asked) + Visits(old(flags[..]), 0, picks)
    {
      picks := ReapPass();
      ForceClear();
    }

    /**
     A cancel, unless the arena is gone. The books end up empty; the kernel keeps what the pass
     left, and `backpressure` keeps its value. It may be called again, with books and kernel at
     odds by then: that asks the kernel for nothing.
     */
    method UrbCancelAll() returns (ghost picks: seq<Option<nat>>)
      requires Shape()
      modifies this`submitted, this`asked, flags, kernel
      ensures !arena ==> asked == old(asked) && kernel[..] == old(kernel[..]) && flags[..] == old(flags[..])
      ensures arena ==>
                && submitted == 0 && (forall k | 0 <= k < depth :: !flags[k])
                && |picks| == depth && PicksHeld(old(flags[..]), old(kernel[..]), 0, picks)
                && kernel[..] == Pass(old(flags[..]), old(kernel[..]), 0, picks)
                && asked == old(asked) + Visits(old(flags[..]), 0, picks)
      ensures arena && old(Valid()) ==>
                (Valid() <==> InArrayOrder(old(flags[..]), picks))
                && Count(kernel[..]) == Misses(old(flags[..]), 0, picks)
      ensures (forall k | 0 <= k < depth :: !old(flags[k])) ==> asked == old(asked) && kernel[..] == old(kernel[..])
    {
      picks := [];
      if !arena {
        return;
      }
      ghost var start, held, valid := flags[..], kernel[..], Valid();
      picks := CancelPass();
      CountBounds(flags[..]);
      if valid {
        WhatCancelLeaves(start, picks);
        assert (forall k | 0 <= k < depth :: !kernel[k]) <==> flags[..] == kernel[..];
      }
      if forall k | 0 <= k < |start| :: !start[k] {
        NothingFlagged(start, held, 0, picks);
      }
    }

    /** Cancel whatever is flagged, then free every buffer: what the kernel still holds afterwards, it holds freed. */
    method UrbFree() returns (ghost picks: seq<Option<nat>>)
      requires Shape()
      modifies this`submitted, this`asked, this`arena, flags, kernel
      ensures !arena && (old(arena) ==> submitted == 0)
      ensures (forall k | 0 <= k < depth :: !old(flags[k])) ==> asked == old(asked) && kernel[..] == old(kernel[..])
    {
      picks := [];
      if !arena {
        return;
      }
      picks := UrbCancelAll();
      arena, submitted := false, 0;
    }

    /**
     How an asynchronous reader ends: cancel, then free, which cancels again. The second cancel
     looks at cleared books and mends nothing, so every URB the first one missed is freed under
     the kernel's hands; none is exactly when they all came back in array order.
     */
    method CancelAndFree() returns (ghost picks: seq<Option<nat>>)
      requires Valid() && arena
      modifies this`submitted, this`asked, this`arena, flags, kernel
      ensures Shape() && !arena && submitted == 0
      ensures |picks| == depth && PicksHeld(old(flags[..]), old(kernel[..]), 0, picks)
      ensures kernel[..] == Pass(old(flags[..]), old(kernel[..]), 0, picks)
      ensures asked == old(asked) + Visits(old(flags[..]), 0, picks)
      ensures Count(kernel[..]) == Misses(old(flags[..]), 0, picks)
      ensures (forall k | 0 <= k < depth :: !kernel[k]) <==> InArrayOrder(old(flags[..]), picks)
    {
      ghost var start := flags[..];
      picks := UrbCancelAll();
      ghost var left := kernel[..];
      var _ := UrbFree();
      assert kernel[..] == left;
      WhatCancelLeaves(start, picks);
    }
  }

  /** A pass up to index |picks|, as the loop has it: whatever is picked later, the whole pass goes on from here. */
  ghost predicate PassSoFar(start: seq<bool>, held: seq<bool>, picks: seq<Option<nat>>, now: seq<bool>, keeps: seq<bool>, count: int) {
    && |picks| <= |start| == |held| == |now| == |keeps|
    && forall later: seq<Option<nat>> | |picks + later| == |start| ::
         && Pass(start, held, 0, picks + later) == Pass(now, keeps, |picks|, picks + later)
         && (PicksHeld(start, held, 0, picks + later) <==> PicksHeld(now, keeps, |picks|, picks + later))
         && Visits(start, 0, picks + later) == count + Visits(now, |picks|, picks + later)
  }

  lemma PassStarts(start: seq<bool>, held: seq<bool>)
    requires |start| == |held|
    ensures PassSoFar(start, held, [], start, held, 0)
  {
  }

  lemma PassStep(start: seq<bool>, held: seq<bool>, picks: seq<Option<nat>>, now: seq<bool>, keeps: seq<bool>, count: int,
                 pick: Option<nat>)
    requires PassSoFar(start, held, picks, now, keeps, count) && |picks| < |start|
    requires pick.Some? ==> pick.value < |keeps| && keeps[pick.value]
    ensures if now[|picks|] then PassSoFar(start, held, picks + [pick], Taken(now, pick), Taken(keeps, pick), count + 1)
            else PassSoFar(start, held, picks + [pick], now, keeps, count)
  {
    forall later: seq<Option<nat>> | |picks + [pick] + later| == |start|
      ensures picks + [pick] + later == picks + ([pick] + later)
    {
    }
  }

  lemma PassDone(start: seq<bool>, held: seq<bool>, picks: seq<Option<nat>>, now: seq<bool>, keeps: seq<bool>, count: int)
    requires PassSoFar(start, held, picks, now, keeps, count) && |picks| == |start|
    ensures PicksHeld(start, held, 0, picks) && Pass(start, held, 0, picks) == keeps && Visits(start, 0, picks) == count
  {
    assert picks + [] == picks;
  }

  // ---- Synchronous reads ----

  const MAX_CHUNK: nat := 16384

  /** The bulk endpoint: the bytes the device is going to send. */
  class Endpoint {
    var pending: seq<byte>
    /** Bytes asked for by each transfer so far, bytes moved by each successful one, and how many have failed. */
    ghost var requested: seq<nat>
    ghost var moved: seq<nat>
    ghost var failed: nat

    constructor (pending: seq<byte>)
      ensures this.pending == pending && requested == moved == [] && failed == 0
    {
      this.pending := pending;
      requested, moved, failed := [], [], 0;
    }

    /** One transfer: it fails and moves nothing, or moves the next bytes, up to `chunk`. */
    method Transfer(buf: array<byte>, at: nat, chunk: nat) returns (r: Option<nat>)
      requires at + chunk <= buf.Length
      modifies this, buf
      ensures failed == old(failed) + (if r.None? then 1 else 0) && requested == old(requested) + [chunk]
      ensures r.None? ==> pending == old(pending) && moved == old(moved) && buf[..] == old(buf[..])
      ensures r.Some? ==> moved == old(moved) + [r.value]
      ensures r.Some? ==> r.value <= chunk && r.value <= |old(pending)| && pending == old(pending)[r.value..]
                          && forall k | 0 <= k < buf.Length :: buf[k] == if at <= k < at + r.value then old(pending)[k - at] else old(buf[k])
    {
      requested := requested + [chunk];
      var n: int := *;
      if !(0 <= n <= chunk && n <= |pending|) {
        failed := failed + 1;
        return None;
      }
      for k := 0 to n
        invariant pending == old(pending) && moved == old(moved) && failed == old(failed) && requested == old(requested) + [chunk]
        invariant forall j | 0 <= j < buf.Length :: buf[j] == if at <= j < at + k then pending[j - at] else old(buf[j])
      {
        buf[at + k] := pending[k];
      }
      pending := pending[n..];
      moved := moved + [n];
      r := Some(n);
    }

    /** A transfer that continues a read after `at` bytes, for all that is left or a full chunk. */
    method NextChunk(buf: array<byte>, at: nat, len: nat, ghost stream: seq<byte>, ghost was: seq<byte>,
                     ghost asked: seq<nat>, ghost sizes: seq<nat>)
      returns (r: Option<nat>, chunk: nat)
      requires at < len <= buf.Length == |was| && ReadSoFar(stream, was, pending, buf[..], at)
      requires ChunkLog(asked, sizes, len, at) && |asked| == |sizes| && at == MAX_CHUNK * |sizes|
      modifies this, buf
      ensures NextRequest(chunk, len, at) && requested == old(requested) + [chunk]
      ensures failed == old(failed) + if r.None? then 1 else 0
      ensures r.None? ==> ReadSoFar(stream, was, pending, buf[..], at) && moved == old(moved) && ChunkLog(asked + [chunk], sizes, len, at)
      ensures r.Some? ==>
                && r.value <= chunk && ReadSoFar(stream, was, pending, buf[..], at + r.value)
                && moved == old(moved) + [r.value] && ChunkLog(asked + [chunk], sizes + [r.value], len, at + r.value)
    {
      ghost var left, before := pending, buf[..];
      chunk := if len - at > MAX_CHUNK then MAX_CHUNK else len - at;
      r := Transfer(buf, at, chunk);
      if r.Some? {
        ReadMore(stream, was, left, before, pending, buf[..], at, r.value);
        LogTransfer(asked, sizes, len, at, chunk, r.value);
      } else {
        LogFailure(asked, sizes, len, at, chunk);
      }
    }

    /**
     A read in chunks of at most 16384 bytes, each as large as what is left allows, ended by a short
     or failed transfer and by nothing else. No byte is lost, repeated or reordered, and only a
     failure of the very first transfer is an error.
     */
    method BulkRead(buf: array<byte>, len: nat) returns (rc: Status, actual: nat, ghost asked: seq<nat>, ghost sizes: seq<nat>)
      requires len <= buf.Length
      modifies this, buf
      ensures actual <= len && ReadSoFar(old(pending), old(buf[..]), pending, buf[..], actual)
      ensures requested == old(requested) + asked && moved == old(moved) + sizes
      ensures ChunkLog(asked, sizes, len, actual)
      ensures old(failed) <= failed <= old(failed) + 1 && |asked| == |sizes| + (failed - old(failed))
      ensures actual < len ==> failed > old(failed) || (sizes != [] && sizes[|sizes| - 1] < asked[|sizes| - 1])
      ensures failed > old(failed) ==> actual < len && actual == MAX_CHUNK * |sizes|
      ensures rc == if failed > old(failed) && sizes == [] then IoError else Ok
    {
      actual, asked, sizes := 0, [], [];
      ghost var stream, was, wanted, log := pending, buf[..], requested, moved;
      NothingRead(stream, was);
      while actual < len
        invariant actual <= len && ReadSoFar(stream, was, pending, buf[..], actual)
        invariant requested == wanted + asked && moved == log + sizes && failed == old(failed)
        invariant ChunkLog(asked, sizes, len, actual) && |asked| == |sizes|
        invariant actual < len ==> actual == MAX_CHUNK * |sizes|
        decreases len - actual
      {
        var r, chunk := NextChunk(buf, actual, len, stream, was, asked, sizes);
        asked := asked + [chunk];
        if r.None? {
          if actual > 0 {
            break;
          }
          return IoError, actual, asked, sizes;
        }
        actual := actual + r.value;
        sizes := sizes + [r.value];
        if r.value < chunk {
          break;
        }
      }
      rc := Ok;
    }
  }

  /** The k-th request starts after k full ones and is for all that is left, or a full chunk. */
  ghost predicate Asks(asked: seq<nat>, len: nat) {
    forall k | 0 <= k < |asked| ::
      MAX_CHUNK * k < len && asked[k] == if len - MAX_CHUNK * k > MAX_CHUNK then MAX_CHUNK else len - MAX_CHUNK * k
  }

  /** Transfers adding up to `total`, all of them full except possibly the last. */
  ghost predicate Chunked(sizes: seq<nat>, total: nat) {
    && (forall k | 0 <= k < |sizes| :: sizes[k] <= MAX_CHUNK && (k < |sizes| - 1 ==> sizes[k] == MAX_CHUNK))
    && total == if sizes == [] then 0 else MAX_CHUNK * (|sizes| - 1) + sizes[|sizes| - 1]
  }

  /** Requests and what came of them, each at most what was asked for. */
  ghost predicate ChunkLog(asked: seq<nat>, sizes: seq<nat>, len: nat, actual: nat) {
    Asks(asked, len) && Chunked(sizes, actual) && |sizes| <= |asked| && forall k | 0 <= k < |sizes| :: sizes[k] <= asked[k]
  }

  /** The request for what is left after so many bytes. */
  predicate NextRequest(chunk: nat, len: nat, actual: nat) {
    actual < len && chunk == if len - actual > MAX_CHUNK then MAX_CHUNK else len - actual
  }

  lemma LogFailure(asked: seq<nat>, sizes: seq<nat>, len: nat, actual: nat, chunk: nat)
    requires ChunkLog(asked, sizes, len, actual) && |asked| == |sizes| && actual == MAX_CHUNK * |sizes| && NextRequest(chunk, len, actual)
    ensures ChunkLog(asked + [chunk], sizes, len, actual)
  {
  }

  lemma LogTransfer(asked: seq<nat>, sizes: seq<nat>, len: nat, actual: nat, chunk: nat, n: nat)
    requires ChunkLog(asked, sizes, len, actual) && |asked| == |sizes| && actual == MAX_CHUNK * |sizes| && NextRequest(chunk, len, actual)
    requires n <= chunk
    ensures ChunkLog(asked + [chunk], sizes + [n], len, actual + n)
  {
  }

  /** The first `actual` bytes of the stream have moved to the front of the buffer, and nothing else has changed. */
  ghost predicate ReadSoFar(stream: seq<byte>, was: seq<byte>, left: seq<byte>, now: seq<byte>, actual: nat) {
    && actual <= |stream| && actual <= |was|
    && |now| == |was| && (forall k | 0 <= k < |was| :: now[k] == if k < actual then stream[k] else was[k])
    && left == stream[actual..]
  }

  lemma ReadMore(stream: seq<byte>, was: seq<byte>, left: seq<byte>, now: seq<byte>, left': seq<byte>, now': seq<byte>,
                 actual: nat, n: nat)
    requires ReadSoFar(stream, was, left, now, actual) && n <= |left| && actual + n <= |was|
    requires left' == left[n..] && |now'| == |now|
    requires forall k | 0 <= k < |now| :: now'[k] == if actual <= k < actual + n then left[k - actual] else now[k]
    ensures ReadSoFar(stream, was, left', now', actual + n)
  {
  }

  lemma NothingRead(stream: seq<byte>, was: seq<byte>)
    ensures ReadSoFar(stream, was, stream, was, 0)
  {
  }
}
