/**
 Whole turns of writer and consumers, byte by byte, against the calls of `RingSpec`: a turn that
 no writer step falls into is one call, and a sequence of such turns is a run of calls.
 */
module RingTurns {
  import opened Words
  import opened RingSpec
  import opened RingBuffer
  import opened RingInterleaving

  // ---- The call-level view of a byte-level state ----

  function AbsReader(r: Consumer): Reader {
    Reader(r.joined, r.pos, seq(|r.log|, n requires 0 <= n < |r.log| => Delivery(r.log[n].start, r.log[n].bytes, r.log[n].sequence)))
  }

  function Abs(s: State): Ring {
    Ring(s.stream, map i: nat | i < |s.readers| :: AbsReader(s.readers[i]))
  }

  // ---- A consumer's turn ----

  /** A waiting consumer is served exactly when there is a next window, and it is that window. */
  lemma LookServes(s: State, r: Consumer)
    requires MemoryOk(s) && ReaderInv(s, r) && r.pc.Waiting?
    ensures LookAt(r, s.wp, |s.stream|) ==
              match NextWindow(|s.stream|, r.pos)
              case None => r
              case Some(start) => r.(rp := U32(start), pc := Fetching(start, map[], map[], {}))
  {
    WindowInWords(|s.stream|, r.pos);
  }

  /** A step of a consumer: a byte copied out by consumer i, or anything another one does. */
  predicate Quiet(e: RingInterleaving.Event, i: nat) {
    !e.BeginWrite? && !e.CopyByte? && !e.Publish? && (e.i == i ==> e.FetchByte?)
  }

  /** Consumer i has been served `start` in state s, and since then only copied bytes out. */
  ghost predicate Under(s: State, t: State, i: nat, start: nat) {
    && t == s.(readers := t.readers) && |t.readers| == |s.readers| && i < |s.readers|
    && t.readers[i] == s.readers[i].(rp := U32(start), pc := t.readers[i].pc)
    && t.readers[i].pc.Fetching? && t.readers[i].pc.start == start
  }

  lemma QuietStep(s: State, t: State, i: nat, start: nat, e: RingInterleaving.Event)
    requires Under(s, t, i, start) && Quiet(e, i) && |s.cells| == |s.origin| == RING_SIZE
    ensures var u := Apply(t, e);
            && Under(s, u, i, start) && t.readers[i].pc.buf.Keys <= u.readers[i].pc.buf.Keys
            && (e.FetchByte? && e.i == i && e.k < SEGMENT ==> e.k in u.readers[i].pc.buf)
  {
  }

  lemma {:induction false} QuietSteps(s: State, t: State, i: nat, start: nat, fs: seq<RingInterleaving.Event>)
    requires Under(s, t, i, start) && |s.cells| == |s.origin| == RING_SIZE
    requires forall n | 0 <= n < |fs| :: Quiet(fs[n], i)
    ensures Under(s, Run(t, fs), i, start)
    ensures forall k | 0 <= k < SEGMENT && FetchByte(i, k) in fs :: k in Run(t, fs).readers[i].pc.buf
  {
    if fs != [] {
      var front := fs[..|fs| - 1];
      QuietSteps(s, t, i, start, front);
      QuietStep(s, Run(t, front), i, start, fs[|fs| - 1]);
      forall k | 0 <= k < SEGMENT && FetchByte(i, k) in fs
        ensures k in Run(t, fs).readers[i].pc.buf
      {
        assert FetchByte(i, k) in front || FetchByte(i, k) == fs[|fs| - 1];
      }
    }
  }

  /** From s to t only consumers have changed, and consumer i waits again with `q` to show for it. */
  ghost predicate TurnLeaves(s: State, t: State, i: nat, q: Reader) {
    && t == s.(readers := t.readers) && |t.readers| == |s.readers| && i < |s.readers|
    && t.readers[i].pc.Waiting? && AbsReader(t.readers[i]) == q
  }

  /** A consumer that was not served does nothing. */
  lemma UnservedTurn(t: State, i: nat, fs: seq<RingInterleaving.Event>)
    requires i < |t.readers| && t.readers[i].pc.Waiting?
    requires forall n | 0 <= n < |fs| :: Quiet(fs[n], i)
    ensures TurnLeaves(t, Apply(Run(t, fs), Deliver(i)), i, AbsReader(t.readers[i]))
  {
    UnservedStays(t, i, fs);
  }

  lemma {:induction false} UnservedStays(t: State, i: nat, fs: seq<RingInterleaving.Event>)
    requires i < |t.readers| && t.readers[i].pc.Waiting?
    requires forall n | 0 <= n < |fs| :: Quiet(fs[n], i)
    ensures var u := Run(t, fs); u == t.(readers := u.readers) && |u.readers| == |t.readers| && u.readers[i] == t.readers[i]
  {
    if fs != [] {
      UnservedStays(t, i, fs[..|fs| - 1]);
    }
  }

  /** With the writer idle a segment that is copied out whole is the stream's. */
  lemma QuietFinish(s: State, t: State, i: nat, start: nat)
    requires Inv(s) && Inv(t) && Under(s, t, i, start) && s.writer.Idle?
    requires |s.stream| <= start + RING_SIZE && forall k | 0 <= k < SEGMENT :: k in t.readers[i].pc.buf
    ensures Full(t.readers[i]) && start + SEGMENT <= |s.stream|
    ensures var q := Finish(t.readers[i]); q.pc.Waiting? && AbsReader(q) == Served(s, i, start)
  {
    var r := t.readers[i];
    assert ReaderInv(t, r);
    forall k | 0 <= k < SEGMENT
      ensures k in r.pc.buf && k in r.pc.from && r.pc.buf[k] == s.stream[start + k]
    {
      assert k in r.pc.from.Keys;
      assert ByteOk(t, start, k, r.pc.buf[k], r.pc.from[k], r.pc.late);
    }
    var q := Finish(r);
    assert q.log[|r.log|].bytes == s.stream[start..start + SEGMENT];
    assert q.log[..|r.log|] == r.log;
  }

  lemma TurnInSteps(s: State, i: nat, fs: seq<RingInterleaving.Event>)
    ensures Run(s, [Look(i)] + fs + [Deliver(i)]) == Apply(Run(Apply(s, Look(i)), fs), Deliver(i))
  {
    RunSnoc(s, [Look(i)] + fs, Deliver(i));
    RunAppend(s, [Look(i)], fs);
    RunOne(s, Look(i));
  }

  lemma LookStep(s: State, i: nat)
    requires Inv(s) && i < |s.readers| && s.readers[i].pc.Waiting?
    ensures s.readers[i].pos <= |s.stream|
    ensures match NextWindow(|s.stream|, s.readers[i].pos)
            case None => Apply(s, Look(i)) == s
            case Some(start) => Under(s, Apply(s, Look(i)), i, start) && |s.stream| <= start + RING_SIZE
  {
    assert ReaderInv(s, s.readers[i]);
    LookServes(s, s.readers[i]);
  }

  /** The turn of a consumer that is served. */
  lemma ServedTurn(s: State, s1: State, i: nat, start: nat, fs: seq<RingInterleaving.Event>)
    requires Inv(s) && Inv(s1) && s.writer.Idle? && Under(s, s1, i, start) && |s.stream| <= start + RING_SIZE
    requires forall n | 0 <= n < |fs| :: Quiet(fs[n], i)
    requires forall k | 0 <= k < SEGMENT :: FetchByte(i, k) in fs
    ensures start + SEGMENT <= |s.stream|
    ensures TurnLeaves(s, Apply(Run(s1, fs), Deliver(i)), i, Served(s, i, start))
  {
    EveryRunKeepsInv(s1, fs);
    QuietSteps(s, s1, i, start, fs);
    QuietFinish(s, Run(s1, fs), i, start);
  }

  /** What a poll makes of reader i when its next window is at `start`. */
  function Served(s: State, i: nat, start: nat): Reader
    requires i < |s.readers| && start + SEGMENT <= |s.stream|
  {
    var r := AbsReader(s.readers[i]);
    Reader(r.joined, start + SEGMENT, r.log + [Delivery(start, s.stream[start..start + SEGMENT], U32(|r.log|))])
  }

  /** What a poll makes of a reader. */
  lemma PollIs(s: State, i: nat)
    requires i < |s.readers| && s.readers[i].pos <= |s.stream|
    ensures var q := PollReader(AbsReader(s.readers[i]), s.stream);
            match NextWindow(|s.stream|, s.readers[i].pos)
            case None => q == AbsReader(s.readers[i])
            case Some(start) => q == Served(s, i, start)
  {
  }

  lemma TurnByParts(s: State, s1: State, i: nat, fs: seq<RingInterleaving.Event>, q: Reader)
    requires Inv(s) && s.writer.Idle? && i < |s.readers| && s.readers[i].pc.Waiting? && s1 == Apply(s, Look(i))
    requires forall n | 0 <= n < |fs| :: Quiet(fs[n], i)
    requires forall k | 0 <= k < SEGMENT :: FetchByte(i, k) in fs
    requires s.readers[i].pos <= |s.stream|
    requires match NextWindow(|s.stream|, s.readers[i].pos)
             case None => q == AbsReader(s.readers[i])
             case Some(start) => q == Served(s, i, start)
    ensures TurnLeaves(s, Apply(Run(s1, fs), Deliver(i)), i, q)
  {
    LookStep(s, i);
    var next := NextWindow(|s.stream|, s.readers[i].pos);
    if next.None? {
      UnservedTurn(s, i, fs);
    } else {
      ApplyKeepsInv(s, Look(i));
      ServedTurn(s, s1, i, next.value, fs);
    }
  }

  /**
   Main result on a consumer's turn. Whatever other consumers do meanwhile, a look, the copying
   of all 16384 bytes in any order, and the callback leave consumer i exactly where one poll
   of the ring would, or where it was when nothing was due.
   */
  lemma TurnIsPoll(s: State, i: nat, fs: seq<RingInterleaving.Event>)
    requires Inv(s) && s.writer.Idle? && i < |s.readers| && s.readers[i].pc.Waiting?
    requires forall n | 0 <= n < |fs| :: Quiet(fs[n], i)
    requires forall k | 0 <= k < SEGMENT :: FetchByte(i, k) in fs
    ensures s.readers[i].pos <= |s.stream|
    ensures TurnLeaves(s, Run(s, [Look(i)] + fs + [Deliver(i)]), i, PollReader(AbsReader(s.readers[i]), s.stream))
  {
    assert ReaderInv(s, s.readers[i]);
    TurnInSteps(s, i, fs);
    PollIs(s, i);
    TurnByParts(s, Apply(s, Look(i)), i, fs, PollReader(AbsReader(s.readers[i]), s.stream));
  }

  // ---- The writer's turn ----

  /** Between s and t only bytes of the write under way have reached memory. */
  ghost predicate Storing(s: State, t: State) {
    && t == s.(writer := t.writer, cells := t.cells, origin := t.origin) && |t.cells| == |t.origin| == RING_SIZE
    && s.writer.Copying? && t.writer.Copying? && t.writer.data == s.writer.data
  }

  lemma {:induction false} StoreSteps(s: State, t: State, steps: seq<RingInterleaving.Event>)
    requires Storing(s, t) && 0 < |s.writer.data| <= RING_SIZE && forall n | 0 <= n < |steps| :: steps[n].CopyByte?
    ensures Storing(s, Run(t, steps))
    ensures forall j | 0 <= j < |s.writer.data| && CopyByte(j) in steps :: j in Run(t, steps).writer.done
  {
    if steps != [] {
      var front := steps[..|steps| - 1];
      StoreSteps(s, t, front);
      forall j | 0 <= j < |s.writer.data| && CopyByte(j) in steps
        ensures j in Run(t, steps).writer.done
      {
        assert CopyByte(j) in front || CopyByte(j) == steps[|steps| - 1];
      }
    }
  }

  lemma WriteInSteps(s: State, data: seq<byte>, steps: seq<RingInterleaving.Event>)
    ensures Run(s, [BeginWrite(data)] + steps + [Publish]) == Apply(Run(Apply(s, BeginWrite(data)), steps), Publish)
  {
    RunSnoc(s, [BeginWrite(data)] + steps, Publish);
    RunAppend(s, [BeginWrite(data)], steps);
    RunOne(s, BeginWrite(data));
  }

  /** The copies of a write, in any order, and the new position make its data the end of the stream and touch no consumer. */
  lemma TurnIsWrite(s: State, data: seq<byte>, steps: seq<RingInterleaving.Event>)
    requires Inv(s) && s.writer.Idle? && 0 < |data| <= RING_SIZE
    requires (forall n | 0 <= n < |steps| :: steps[n].CopyByte?) && forall j | 0 <= j < |data| :: CopyByte(j) in steps
    ensures var t := Run(s, [BeginWrite(data)] + steps + [Publish]);
            t.stream == s.stream + data && t.wp == U32(|t.stream|) && t.writer.Idle? && t.readers == s.readers
  {
    WriteInSteps(s, data, steps);
    var s1 := Apply(s, BeginWrite(data));
    StoreSteps(s1, s1, steps);
    U32Left(|s.stream|, |data|);
  }

  // ---- Sequences of whole turns ----

  /** Every consumer waits and no write is under way. */
  ghost predicate Settled(s: State) {
    Inv(s) && s.writer.Idle? && forall i | 0 <= i < |s.readers| :: s.readers[i].pc.Waiting?
  }

  datatype Turn =
    | Writes(data: seq<byte>, copies: seq<RingInterleaving.Event>)
    | Polls(i: nat, fetches: seq<RingInterleaving.Event>)
    | Attaches(i: nat)

  ghost predicate TurnOk(turn: Turn, readers: nat) {
    match turn
    case Writes(data, copies) =>
      && 0 < |data| <= RING_SIZE
      && (forall n | 0 <= n < |copies| :: copies[n].CopyByte?) && forall j | 0 <= j < |data| :: CopyByte(j) in copies
    case Polls(i, fetches) =>
      && i < readers
      && (forall n | 0 <= n < |fetches| :: fetches[n].FetchByte? && fetches[n].i == i)
      && forall k | 0 <= k < SEGMENT :: FetchByte(i, k) in fetches
    case Attaches(i) => i < readers
  }

  function Steps(turn: Turn): seq<RingInterleaving.Event> {
    match turn
    case Writes(data, copies) => [BeginWrite(data)] + copies + [Publish]
    case Polls(i, fetches) => [Look(i)] + fetches + [RingInterleaving.Deliver(i)]
    case Attaches(i) => [Attach(i)]
  }

  /** The calls a turn amounts to; a consumer that attaches anew has left first. */
  function CallsOf(turn: Turn): seq<RingSpec.Event> {
    match turn
    case Writes(data, _) => [RingSpec.Write(data)]
    case Polls(i, _) => [RingSpec.Poll(i)]
    case Attaches(i) => [RingSpec.Leave(i), RingSpec.Join(i)]
  }

  lemma OneReaderChanges(s: State, t: State, i: nat, q: Reader)
    requires i < |s.readers| == |t.readers| && t.stream == s.stream && AbsReader(t.readers[i]) == q
    requires forall n | 0 <= n < |s.readers| && n != i :: t.readers[n] == s.readers[n]
    ensures Abs(t) == Abs(s).(readers := Abs(s).readers[i := q])
  {
  }

  lemma StartedIsFresh(at: nat, rp: nat)
    ensures AbsReader(Started(at).(rp := rp)) == Reader(at, at, [])
  {
  }

  /** Attaching is joining: a fresh reader at the end of the stream. */
  lemma AttachIsJoin(s: State, i: nat)
    requires i < |s.readers|
    ensures Abs(Apply(s, Attach(i))) == Abs(s).(readers := Abs(s).readers[i := Reader(|s.stream|, |s.stream|, [])])
  {
    StartedIsFresh(|s.stream|, s.wp);
    OneReaderChanges(s, Apply(s, Attach(i)), i, Reader(|s.stream|, |s.stream|, []));
  }

  lemma PollLeavesOthers(s: State, i: nat, fetches: seq<RingInterleaving.Event>, m: nat)
    requires i < |s.readers| && forall n | 0 <= n < |fetches| :: fetches[n].FetchByte? && fetches[n].i == i
    requires m < |s.readers| && m != i
    ensures var t := Run(s, [Look(i)] + fetches + [RingInterleaving.Deliver(i)]);
            |t.readers| == |s.readers| && t.readers[m] == s.readers[m]
  {
    OthersLeaveReaderAlone(s, [Look(i)] + fetches + [RingInterleaving.Deliver(i)], m);
  }

  // ---- Each turn is its calls ----

  lemma ExecOne(s: Ring, e: RingSpec.Event)
    requires RingOk(s)
    ensures RingOk(Step(s, e)) && Exec(s, [e]) == Step(s, e)
  {
    StepKeepsRing(s, e);
    assert [e][1..] == [];
  }

  lemma WriteTurn(s: State, data: seq<byte>, copies: seq<RingInterleaving.Event>)
    requires Settled(s) && RingOk(Abs(s)) && TurnOk(Writes(data, copies), |s.readers|)
    ensures var t := Run(s, [BeginWrite(data)] + copies + [Publish]);
            && t.writer.Idle? && t.readers == s.readers && Abs(t) == Exec(Abs(s), [RingSpec.Write(data)])
  {
    TurnIsWrite(s, data, copies);
    ExecOne(Abs(s), RingSpec.Write(data));
  }

  lemma PollTurn(s: State, i: nat, fetches: seq<RingInterleaving.Event>)
    requires Settled(s) && RingOk(Abs(s)) && TurnOk(Polls(i, fetches), |s.readers|)
    ensures var t := Run(s, [Look(i)] + fetches + [RingInterleaving.Deliver(i)]);
            && t.writer.Idle? && |t.readers| == |s.readers| && (forall m | 0 <= m < |s.readers| :: t.readers[m].pc.Waiting?)
            && Abs(t) == Exec(Abs(s), [RingSpec.Poll(i)])
  {
    var t := Run(s, [Look(i)] + fetches + [RingInterleaving.Deliver(i)]);
    TurnIsPoll(s, i, fetches);
    forall m | 0 <= m < |s.readers| && m != i
      ensures t.readers[m] == s.readers[m]
    {
      PollLeavesOthers(s, i, fetches, m);
    }
    OneReaderChanges(s, t, i, PollReader(AbsReader(s.readers[i]), s.stream));
    ExecOne(Abs(s), RingSpec.Poll(i));
  }

  lemma LeaveThenJoin(a: Ring, i: nat)
    requires RingOk(a) && i in a.readers
    ensures Exec(a, [RingSpec.Leave(i), RingSpec.Join(i)]) == a.(readers := a.readers[i := Reader(|a.stream|, |a.stream|, [])])
  {
    var left := Step(a, RingSpec.Leave(i));
    StepKeepsRing(a, RingSpec.Leave(i));
    ExecOne(left, RingSpec.Join(i));
    assert [RingSpec.Leave(i), RingSpec.Join(i)][1..] == [RingSpec.Join(i)];
    assert left.readers[i := Reader(|a.stream|, |a.stream|, [])] == a.readers[i := Reader(|a.stream|, |a.stream|, [])];
  }

  lemma AttachTurn(s: State, i: nat)
    requires RingOk(Abs(s)) && i < |s.readers|
    ensures Abs(Run(s, [Attach(i)])) == Exec(Abs(s), [RingSpec.Leave(i), RingSpec.Join(i)])
  {
    RunOne(s, Attach(i));
    AttachIsJoin(s, i);
    LeaveThenJoin(Abs(s), i);
  }

  lemma TurnIsCalls(s: State, turn: Turn)
    requires Settled(s) && RingOk(Abs(s)) && TurnOk(turn, |s.readers|)
    ensures var t := Run(s, Steps(turn));
            Settled(t) && |t.readers| == |s.readers| && Abs(t) == Exec(Abs(s), CallsOf(turn))
  {
    EveryRunKeepsInv(s, Steps(turn));
    match turn {
      case Writes(data, copies) => WriteTurn(s, data, copies);
      case Polls(i, fetches) => PollTurn(s, i, fetches);
      case Attaches(i) =>
        AttachTurn(s, i);
        RunOne(s, Attach(i));
    }
  }

  function AllSteps(turns: seq<Turn>): seq<RingInterleaving.Event> {
    if turns == [] then [] else Steps(turns[0]) + AllSteps(turns[1..])
  }

  function AllCalls(turns: seq<Turn>): seq<RingSpec.Event> {
    if turns == [] then [] else CallsOf(turns[0]) + AllCalls(turns[1..])
  }

  lemma {:induction false} ExecInTwo(s: Ring, es: seq<RingSpec.Event>, fs: seq<RingSpec.Event>)
    requires RingOk(s)
    ensures Exec(s, es + fs) == Exec(Exec(s, es), fs)
    decreases |es|
  {
    if es == [] {
      assert es + fs == fs;
    } else {
      StepKeepsRing(s, es[0]);
      ExecInTwo(Step(s, es[0]), es[1..], fs);
      assert (es + fs)[1..] == es[1..] + fs;
    }
  }

  /**
   Main result on whole turns. A sequence of turns that do not cut into one another does to the
   ring, byte by byte, what the calls do to `RingSpec`; so all that is proved of runs of calls
   holds of it.
   */
  lemma {:induction false} TurnsAreCalls(s: State, turns: seq<Turn>)
    requires Settled(s) && RingOk(Abs(s)) && forall n | 0 <= n < |turns| :: TurnOk(turns[n], |s.readers|)
    ensures Settled(Run(s, AllSteps(turns))) && Abs(Run(s, AllSteps(turns))) == Exec(Abs(s), AllCalls(turns))
    decreases |turns|
  {
    if turns != [] {
      var t := Run(s, Steps(turns[0]));
      TurnIsCalls(s, turns[0]);
      TurnsAreCalls(t, turns[1..]);
      RunAppend(s, Steps(turns[0]), AllSteps(turns[1..]));
      ExecInTwo(Abs(s), CallsOf(turns[0]), AllCalls(turns[1..]));
    }
  }

  /** It does from the start on. */
  lemma InitIsSettled(readers: nat)
    ensures Settled(Init(readers)) && RingOk(Abs(Init(readers)))
  {
    InitOk(readers);
  }
}
