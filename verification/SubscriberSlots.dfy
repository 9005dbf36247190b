/**
 Who may use a subscriber slot, and when. The locked sections of subscribe and unsubscribe
 are single steps; unsubscribe is cancel, join, release, with anything in between, and a
 consumer thread may leave its loop at any moment.
 */
module SubscriberSlots {
  import RingSpec

  const SLOTS: nat := RingSpec.MAX_SUBSCRIBERS

  datatype Slot = Slot(active: bool, started: bool, cancel: bool, thread: nat)

  datatype Stage = AtJoin | AtRelease

  /** An unsubscribe call under way. */
  datatype Call = Call(handle: nat, stage: Stage)

  /** `running` maps each live consumer thread to its slot; `held` counts handles given out and not yet released. */
  datatype State = State(
    slots: seq<Slot>,
    running: map<nat, nat>,
    threads: nat,
    calls: map<nat, Call>,
    held: multiset<nat>)

  datatype Event =
    | Subscribe(spawned: bool)
    | Exit(thread: nat)
    | Cancel(caller: nat, handle: nat)
    | Join(caller: nat)
    | Release(caller: nat)

  function Init(): State {
    State(seq(SLOTS, _ => Slot(false, false, false, 0)), map[], 0, map[], multiset{})
  }

  /** The lowest slot from `from` on that is not active. */
  function FirstFree(slots: seq<Slot>, from: nat): (h: nat)
    requires from <= |slots|
    ensures from <= h <= |slots|
    ensures h < |slots| ==> !slots[h].active
    ensures forall i | from <= i < h :: slots[i].active
    decreases |slots| - from
  {
    if from == |slots| || !slots[from].active then from else FirstFree(slots, from + 1)
  }

  function Apply(s: State, e: Event): State {
    match e
    case Subscribe(spawned) =>
      var h := FirstFree(s.slots, 0);
      if h == |s.slots| then s
      else if !spawned then s.(slots := s.slots[h := s.slots[h].(active := false, cancel := false)])
      else
        State(s.slots[h := Slot(true, true, false, s.threads)], s.running[s.threads := h], s.threads + 1, s.calls,
              s.held + multiset{h})
    case Exit(thread) => s.(running := s.running - {thread})
    case Cancel(caller, h) =>
      if caller in s.calls || h >= |s.slots| || !s.slots[h].active then s
      else s.(slots := s.slots[h := s.slots[h].(cancel := true)], calls := s.calls[caller := Call(h, AtJoin)])
    case Join(caller) =>
      if caller !in s.calls || s.calls[caller].stage != AtJoin || s.calls[caller].handle >= |s.slots| then s
      else
        var h := s.calls[caller].handle;
        if !s.slots[h].started then s.(calls := s.calls[caller := Call(h, AtRelease)])
        else if s.slots[h].thread in s.running then s  // pthread_join still waits
        else s.(slots := s.slots[h := s.slots[h].(started := false)], calls := s.calls[caller := Call(h, AtRelease)])
    case Release(caller) =>
      if caller !in s.calls || s.calls[caller].stage != AtRelease || s.calls[caller].handle >= |s.slots| then s
      else
        var h := s.calls[caller].handle;
        s.(slots := s.slots[h := s.slots[h].(active := false)], calls := s.calls - {caller}, held := s.held - multiset{h})
  }

  /** The callers' side of the contract: nobody cancels a handle that is already being unsubscribed. */
  predicate OneUnsubscriber(s: State, e: Event) {
    e.Cancel? ==> forall c | c in s.calls :: s.calls[c].handle != e.handle
  }

  function Run(s: State, es: seq<Event>): State
    decreases |es|
  {
    if es == [] then s else Run(Apply(s, es[0]), es[1..])
  }

  predicate Disciplined(s: State, es: seq<Event>)
    decreases |es|
  {
    es == [] || (OneUnsubscriber(s, es[0]) && Disciplined(Apply(s, es[0]), es[1..]))
  }

  /** Every live consumer is the registered thread of an active slot. */
  ghost predicate RunningOk(s: State) {
    forall t | t in s.running ::
      && t < s.threads && s.running[t] < |s.slots|
      && var slot := s.slots[s.running[t]]; slot.active && slot.started && slot.thread == t
  }

  /** An unsubscribe under way keeps its slot active; the slot counts as started until the join. */
  ghost predicate CallOk(s: State, call: Call) {
    && call.handle < |s.slots|
    && var slot := s.slots[call.handle]; slot.active && slot.cancel && (slot.started <==> call.stage == AtJoin)
  }

  ghost predicate CallsOk(s: State) {
    && (forall c | c in s.calls :: CallOk(s, s.calls[c]))
    && (forall c, d | c in s.calls && d in s.calls && c != d :: s.calls[c].handle != s.calls[d].handle)
  }

  ghost predicate SlotOk(s: State, h: nat)
    requires h < |s.slots|
  {
    && (s.slots[h].started ==> s.slots[h].active && s.slots[h].thread < s.threads)
    // nobody is told to stop, or has been joined, except by an unsubscribe that is still under way
    && (s.slots[h].active && (s.slots[h].cancel || !s.slots[h].started) ==> exists c :: c in s.calls && s.calls[c].handle == h)
    && s.held[h] == (if s.slots[h].active then 1 else 0)
  }

  ghost predicate Inv(s: State) {
    |s.slots| == SLOTS && RunningOk(s) && CallsOk(s) && forall h | 0 <= h < SLOTS :: SlotOk(s, h)
  }

  lemma SubscribeKeepsInv(s: State, spawned: bool)
    requires Inv(s)
    ensures Inv(Apply(s, Subscribe(spawned)))
  {
    var t, h := Apply(s, Subscribe(spawned)), FirstFree(s.slots, 0);
    assert h < SLOTS ==> SlotOk(s, h);
    forall c | c in t.calls
      ensures CallOk(t, t.calls[c])
    {
      assert CallOk(s, s.calls[c]);
    }
    forall i | 0 <= i < SLOTS
      ensures SlotOk(t, i)
    {
      assert SlotOk(s, i);
    }
  }

  lemma ExitKeepsInv(s: State, thread: nat)
    requires Inv(s)
    ensures Inv(Apply(s, Exit(thread)))
  {
    var t := Apply(s, Exit(thread));
    forall c | c in t.calls
      ensures CallOk(t, t.calls[c])
    {
      assert CallOk(s, s.calls[c]);
    }
    forall i | 0 <= i < SLOTS
      ensures SlotOk(t, i)
    {
      assert SlotOk(s, i);
    }
  }

  lemma CancelKeepsInv(s: State, caller: nat, h: nat)
    requires Inv(s) && OneUnsubscriber(s, Cancel(caller, h))
    ensures Inv(Apply(s, Cancel(caller, h)))
  {
    var t := Apply(s, Cancel(caller, h));
    if t != s {
      assert SlotOk(s, h);
      forall c | c in t.calls
        ensures CallOk(t, t.calls[c])
      {
        assert c in s.calls ==> CallOk(s, s.calls[c]);
      }
      forall i | 0 <= i < SLOTS
        ensures SlotOk(t, i)
      {
        assert SlotOk(s, i);
        if i == h {
          assert t.calls[caller].handle == h;
        } else if t.slots[i].active && (t.slots[i].cancel || !t.slots[i].started) {
          var c :| c in s.calls && s.calls[c].handle == i;
          assert c in t.calls && t.calls[c].handle == i;
        }
      }
    }
  }

  lemma JoinKeepsInv(s: State, caller: nat)
    requires Inv(s)
    ensures Inv(Apply(s, Join(caller)))
  {
    var t := Apply(s, Join(caller));
    if t != s {
      assert CallOk(s, s.calls[caller]);
      forall c | c in t.calls
        ensures CallOk(t, t.calls[c])
      {
        assert CallOk(s, s.calls[c]);
      }
      forall i | 0 <= i < SLOTS
        ensures SlotOk(t, i)
      {
        assert SlotOk(s, i);
        assert t.calls[caller].handle == s.calls[caller].handle;
        if s.slots[i].active && (s.slots[i].cancel || !s.slots[i].started) {
          var c :| c in s.calls && s.calls[c].handle == i;
          assert c in t.calls && t.calls[c].handle == i;
        }
      }
    }
  }

  lemma ReleaseKeepsInv(s: State, caller: nat)
    requires Inv(s)
    ensures Inv(Apply(s, Release(caller)))
  {
    var t := Apply(s, Release(caller));
    if t != s {
      var h := s.calls[caller].handle;
      assert CallOk(s, s.calls[caller]);
      forall c | c in t.calls
        ensures CallOk(t, t.calls[c])
      {
        assert CallOk(s, s.calls[c]) && s.calls[c].handle != h;
      }
      forall i | 0 <= i < SLOTS
        ensures SlotOk(t, i)
      {
        assert SlotOk(s, i);
        if i != h && s.slots[i].active && (s.slots[i].cancel || !s.slots[i].started) {
          var c :| c in s.calls && s.calls[c].handle == i;
          assert c in t.calls && t.calls[c].handle == i;
        }
      }
    }
  }

  lemma ApplyKeepsInv(s: State, e: Event)
    requires Inv(s) && OneUnsubscriber(s, e)
    ensures Inv(Apply(s, e))
  {
    match e
    case Subscribe(spawned) => SubscribeKeepsInv(s, spawned);
    case Exit(thread) => ExitKeepsInv(s, thread);
    case Cancel(caller, h) => CancelKeepsInv(s, caller, h);
    case Join(caller) => JoinKeepsInv(s, caller);
    case Release(caller) => ReleaseKeepsInv(s, caller);
  }

  lemma {:induction false} DisciplinedRunsKeepInv(s: State, es: seq<Event>)
    requires Inv(s) && Disciplined(s, es)
    ensures Inv(Run(s, es))
    decreases |es|
  {
    if es != [] {
      ApplyKeepsInv(s, es[0]);
      DisciplinedRunsKeepInv(Apply(s, es[0]), es[1..]);
    }
  }

  /**
   With one unsubscriber per handle, no interleaving hands out a slot whose old consumer can
   still run, every live consumer is the thread its own slot knows about (so no two share
   one), the handles held by callers are distinct, and the consumer of a handle still held is
   told to stop only by an unsubscribe of it that is under way.
   */
  lemma SlotsAreNeverShared(es: seq<Event>)
    requires Disciplined(Init(), es)
    ensures var s := Run(Init(), es);
            && |s.slots| == SLOTS
            && (forall t | t in s.running :: s.running[t] != FirstFree(s.slots, 0))
            && (forall t, u | t in s.running && u in s.running && t != u :: s.running[t] != s.running[u])
            && (forall h | 0 <= h < SLOTS :: s.held[h] <= 1 && (s.held[h] == 1 <==> s.slots[h].active))
            && (forall h | 0 <= h < SLOTS && s.slots[h].active && s.slots[h].cancel :: exists c :: c in s.calls && s.calls[c].handle == h)
  {
    DisciplinedRunsKeepInv(Init(), es);
    var s := Run(Init(), es);
    forall h | 0 <= h < SLOTS
      ensures s.held[h] <= 1 && (s.held[h] == 1 <==> s.slots[h].active)
      ensures s.slots[h].active && s.slots[h].cancel ==> exists c :: c in s.calls && s.calls[c].handle == h
    {
      assert SlotOk(s, h);
    }
  }

  /**
   A subscription gets the lowest free slot, if there is one, with a new consumer that nobody has
   told to stop; one whose thread cannot be started leaves every slot as free or taken as it was.
   */
  lemma SubscribeServes(s: State, spawned: bool, h: nat)
    requires Inv(s) && h <= SLOTS && (h < SLOTS ==> !s.slots[h].active) && forall i | 0 <= i < h :: s.slots[i].active
    ensures var t := Apply(s, Subscribe(spawned));
            && |t.slots| == SLOTS && t.calls == s.calls
            && (forall i | 0 <= i < SLOTS && i != h :: t.slots[i] == s.slots[i])
            && (spawned && h < SLOTS ==>
                  && t.slots[h].active && t.slots[h].started && !t.slots[h].cancel
                  && t.slots[h].thread !in s.running && t.running == s.running[t.slots[h].thread := h])
            && (!spawned || h == SLOTS ==> t.running == s.running && forall i | 0 <= i < SLOTS :: t.slots[i].active == s.slots[i].active)
  {
    var free := FirstFree(s.slots, 0);
    assert free == h;
  }

  /** unsubscribe run to its end by one caller for the active slot h, the consumer leaving its loop on the way. */
  function Unsubscribe(s: State, h: nat, caller: nat): State
    requires h < |s.slots|
  {
    Run(s, UnsubscribeEvents(s, h, caller))
  }

  function UnsubscribeEvents(s: State, h: nat, caller: nat): seq<Event>
    requires h < |s.slots|
  {
    [Cancel(caller, h), Exit(s.slots[h].thread), Join(caller), Release(caller)]
  }

  /** The slot is free and has no consumer; other slots, other calls and other consumers are as they were. */
  ghost predicate Freed(s: State, t: State, h: nat) {
    && |t.slots| == |s.slots| && h < |t.slots| && !t.slots[h].active
    && (forall i | 0 <= i < |s.slots| && i != h :: t.slots[i] == s.slots[i])
    && t.calls == s.calls && t.threads == s.threads
    && (forall n | n in t.running :: n in s.running && t.running[n] == s.running[n] != h)
  }

  /**
   Whatever other unsubscribe calls are under way, even of the same handle, a call that runs to
   its end frees its slot; if it is the handle's only one, it is within the discipline.
   */
  lemma UnsubscribeFrees(s: State, h: nat, caller: nat)
    requires RunningOk(s) && h < |s.slots| && s.slots[h].active && caller !in s.calls
    ensures Freed(s, Unsubscribe(s, h, caller), h) && RunningOk(Unsubscribe(s, h, caller))
    ensures Inv(s) && OneUnsubscriber(s, Cancel(caller, h)) ==>
              Disciplined(s, UnsubscribeEvents(s, h, caller)) && Inv(Unsubscribe(s, h, caller))
  {
    var es := UnsubscribeEvents(s, h, caller);
    FourSteps(s, es[0], es[1], es[2], es[3]);
    CancelAndExit(s, h, caller);
    JoinAndRelease(s, Apply(Apply(s, es[0]), es[1]), h, caller);
    if Inv(s) && OneUnsubscriber(s, es[0]) {
      DisciplinedRunsKeepInv(s, es);
    }
  }

  /** Half-way: the call is waiting for a consumer that has gone. */
  ghost predicate Cancelled(s: State, t: State, h: nat, caller: nat) {
    && |t.slots| == |s.slots| && h < |t.slots| && t.slots[h] == s.slots[h].(cancel := true)
    && (forall i | 0 <= i < |s.slots| && i != h :: t.slots[i] == s.slots[i])
    && t.calls == s.calls[caller := Call(h, AtJoin)] && t.threads == s.threads
    && t.running == s.running - {s.slots[h].thread}
  }

  lemma CancelAndExit(s: State, h: nat, caller: nat)
    requires h < |s.slots| && s.slots[h].active && caller !in s.calls
    ensures Cancelled(s, Apply(Apply(s, Cancel(caller, h)), Exit(s.slots[h].thread)), h, caller)
  {
  }

  lemma JoinAndRelease(s: State, b: State, h: nat, caller: nat)
    requires RunningOk(s) && h < |s.slots| && caller !in s.calls && Cancelled(s, b, h, caller)
    ensures var t := Apply(Apply(b, Join(caller)), Release(caller)); Freed(s, t, h) && RunningOk(t)
  {
    var c := Apply(b, Join(caller));
    assert c.calls == s.calls[caller := Call(h, AtRelease)];
    var t := Apply(c, Release(caller));
    assert t.calls == s.calls && t.running == b.running;
    forall n | n in t.running
      ensures n in s.running && t.running[n] == s.running[n] != h
    {
      assert n != s.slots[h].thread;
    }
  }

  lemma FourSteps(s: State, e0: Event, e1: Event, e2: Event, e3: Event)
    requires !e1.Cancel? && !e2.Cancel? && !e3.Cancel?
    ensures Run(s, [e0, e1, e2, e3]) == Apply(Apply(Apply(Apply(s, e0), e1), e2), e3)
    ensures OneUnsubscriber(s, e0) ==> Disciplined(s, [e0, e1, e2, e3])
  {
    var a := Apply(s, e0);
    var b := Apply(a, e1);
    var c := Apply(b, e2);
    FirstStep(c, e3, []);
    FirstStep(b, e2, [e3]);
    FirstStep(a, e1, [e2, e3]);
    FirstStep(s, e0, [e1, e2, e3]);
    assert [e3] + [] == [e3] && [e2] + [e3] == [e2, e3] && [e1] + [e2, e3] == [e1, e2, e3] && [e0] + [e1, e2, e3] == [e0, e1, e2, e3];
  }

  lemma FirstStep(s: State, e: Event, rest: seq<Event>)
    ensures Run(s, [e] + rest) == Run(Apply(s, e), rest)
    ensures Disciplined(s, [e] + rest) <==> OneUnsubscriber(s, e) && Disciplined(Apply(s, e), rest)
  {
    assert ([e] + rest)[1..] == rest;
  }

  /** stop, for the slots from h on. */
  function StopFrom(s: State, h: nat, caller: nat): State
    decreases SLOTS - h
  {
    if h >= SLOTS || h >= |s.slots| then s
    else if s.slots[h].active then StopFrom(Unsubscribe(s, h, caller), h + 1, caller)
    else StopFrom(s, h + 1, caller)
  }

  lemma {:induction false} StopFreesTheRest(s: State, h: nat, caller: nat)
    requires RunningOk(s) && |s.slots| == SLOTS && caller !in s.calls && h <= SLOTS
    requires forall i | 0 <= i < h :: !s.slots[i].active
    ensures var t := StopFrom(s, h, caller);
            && |t.slots| == SLOTS && RunningOk(t) && t.calls == s.calls && forall i | 0 <= i < SLOTS :: !t.slots[i].active
    decreases SLOTS - h
  {
    if h < SLOTS {
      if s.slots[h].active {
        UnsubscribeFrees(s, h, caller);
        StopFreesTheRest(Unsubscribe(s, h, caller), h + 1, caller);
      } else {
        StopFreesTheRest(s, h + 1, caller);
      }
    }
  }

  /** From any state a disciplined run reaches, unsubscribe calls under way or not, stop leaves no consumer running and no slot taken. */
  lemma StopLeavesNoConsumer(es: seq<Event>, caller: nat)
    requires Disciplined(Init(), es) && caller !in Run(Init(), es).calls
    ensures var t := StopFrom(Run(Init(), es), 0, caller);
            && t.running == map[] && |t.slots| == SLOTS && (forall i | 0 <= i < SLOTS :: !t.slots[i].active)
            && t.calls == Run(Init(), es).calls
  {
    DisciplinedRunsKeepInv(Init(), es);
    StopFreesTheRest(Run(Init(), es), 0, caller);
  }

  /**
   Two unsubscribers of one handle break it: after this run slot 0 is free again while the
   consumer of the third subscription still runs in it, and the next subscriber gets slot 0.
   */
  lemma TwoUnsubscribersShareASlot()
    ensures var es := [Subscribe(true), Cancel(1, 0), Cancel(2, 0), Exit(0), Join(1), Join(2), Release(1),
                       Subscribe(true), Release(2)];
            var s := Run(Init(), es);
            |s.slots| == SLOTS && FirstFree(s.slots, 0) == 0 && 1 in s.running && s.running[1] == 0
  {
    var s1 := Apply(Init(), Subscribe(true));
    assert s1.slots[0] == Slot(true, true, false, 0);
    BothPastTheJoin(s1);
    var s5 := Run(s1, [Cancel(1, 0), Cancel(2, 0), Exit(0), Join(1), Join(2)]);
    SecondReleaseFreesTheNewSlot(s5);
    var es := [Subscribe(true), Cancel(1, 0), Cancel(2, 0), Exit(0), Join(1), Join(2), Release(1), Subscribe(true), Release(2)];
    assert Run(Init(), es) == Run(s5, [Release(1), Subscribe(true), Release(2)]);
  }

  lemma BothPastTheJoin(s: State)
    requires |s.slots| == SLOTS && s.slots[0] == Slot(true, true, false, 0) && s.running == map[0 := 0] && s.threads == 1 && s.calls == map[]
    ensures var t := Run(s, [Cancel(1, 0), Cancel(2, 0), Exit(0), Join(1), Join(2)]);
            && |t.slots| == SLOTS && t.slots[0] == Slot(true, false, true, 0) && t.threads == 1 && t.running == map[]
            && t.calls == map[1 := Call(0, AtRelease), 2 := Call(0, AtRelease)]
  {
    var a := Apply(Apply(s, Cancel(1, 0)), Cancel(2, 0));
    assert a.calls == map[1 := Call(0, AtJoin), 2 := Call(0, AtJoin)] && a.slots[0] == Slot(true, true, true, 0);
    var b := Apply(Apply(Apply(a, Exit(0)), Join(1)), Join(2));
    assert Run(s, [Cancel(1, 0), Cancel(2, 0), Exit(0), Join(1), Join(2)]) == Run(a, [Exit(0), Join(1), Join(2)]) == b;
  }

  lemma SecondReleaseFreesTheNewSlot(s: State)
    requires |s.slots| == SLOTS && s.slots[0] == Slot(true, false, true, 0) && s.threads == 1 && s.running == map[]
    requires s.calls == map[1 := Call(0, AtRelease), 2 := Call(0, AtRelease)]
    ensures var t := Run(s, [Release(1), Subscribe(true), Release(2)]);
            |t.slots| == SLOTS && FirstFree(t.slots, 0) == 0 && 1 in t.running && t.running[1] == 0
  {
    var a := Apply(s, Release(1));
    assert FirstFree(a.slots, 0) == 0 && 2 in a.calls;
    var b := Apply(a, Subscribe(true));
    assert Run(s, [Release(1), Subscribe(true), Release(2)]) == Apply(b, Release(2));
  }
}
