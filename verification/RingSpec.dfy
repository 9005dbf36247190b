/**
 The IQ ring as its callers see it: one unbounded byte stream, and readers at true
 (never wrapping) positions in it. `RingBuffer` shows that the 32-bit counters and the
 4 MB array refine this view call by call; the theorems here are about whole runs.
 */
module RingSpec {
  import opened Words

  const RING_SIZE: nat := 0x40_0000
  const SEGMENT: nat := 16384
  const MAX_SUBSCRIBERS: nat := 8

  /** One callback: the stream position it starts at, the bytes handed over, and the counter shown to the user. */
  datatype Delivery = Delivery(start: nat, bytes: seq<byte>, sequence: nat)

  datatype Reader = Reader(joined: nat, pos: nat, log: seq<Delivery>)

  datatype Ring = Ring(stream: seq<byte>, readers: map<nat, Reader>)

  datatype Event =
    | Write(data: seq<byte>)
    | Poll(slot: nat)
    | Join(slot: nat)
    | Leave(slot: nat)

  /** Where the next delivered window starts. The code sees only the lag modulo 2^32. */
  function NextWindow(written: nat, pos: nat): (start: Option<nat>)
    requires pos <= written
    ensures start.None? <==> U32(written - pos) < SEGMENT
    ensures start.Some? ==> pos <= start.value && start.value + SEGMENT <= written <= start.value + RING_SIZE
    ensures start.Some? ==> (start.value == pos <==> written - pos <= RING_SIZE)
  {
    var avail := U32(written - pos);
    if avail < SEGMENT then None
    else if avail > RING_SIZE then Some(written - SEGMENT)
    else Some(written - avail)
  }

  ghost predicate DeliveryOk(d: Delivery, k: nat, stream: seq<byte>) {
    && d.start + SEGMENT <= |stream|
    && d.bytes == stream[d.start..d.start + SEGMENT]
    && d.sequence == U32(k)
  }

  /** Every delivery is a window of the stream, and windows follow one another without overlap. */
  ghost predicate ReaderOk(r: Reader, stream: seq<byte>) {
    && r.joined <= r.pos <= |stream|
    && r.pos == (if r.log == [] then r.joined else r.log[|r.log| - 1].start + SEGMENT)
    && (forall k | 0 <= k < |r.log| :: DeliveryOk(r.log[k], k, stream) && r.joined <= r.log[k].start)
    && (forall j, k | 0 <= j < k < |r.log| :: r.log[j].start + SEGMENT <= r.log[k].start)
  }

  ghost predicate RingOk(s: Ring) {
    forall i | i in s.readers :: ReaderOk(s.readers[i], s.stream)
  }

  function PollReader(r: Reader, stream: seq<byte>): Reader
    requires r.pos <= |stream|
  {
    match NextWindow(|stream|, r.pos)
    case None => r
    case Some(start) =>
      Reader(r.joined, start + SEGMENT, r.log + [Delivery(start, stream[start..start + SEGMENT], U32(|r.log|))])
  }

  /**
   A reader that is served either catches up with the writer, having heard the newest segment, or
   moves on by exactly one segment, as far as 32-bit positions can tell.
   */
  lemma CaughtUpOrNext(r: Reader, stream: seq<byte>)
    requires r.pos <= |stream| && NextWindow(|stream|, r.pos).Some?
    ensures var q, lag := PollReader(r, stream), U32(|stream| - r.pos);
            if lag > RING_SIZE then q.pos == |stream|
            else U32(q.pos) == U32(r.pos + SEGMENT) && |stream| - q.pos == lag - SEGMENT
  {
    var lag := U32(|stream| - r.pos);
    if lag <= RING_SIZE {
      U32Right(|stream| + SEGMENT, |stream| - r.pos);
    }
  }

  ghost function Step(s: Ring, e: Event): Ring
    requires RingOk(s)
  {
    match e
    case Write(data) => s.(stream := s.stream + data)
    case Poll(i) => if i in s.readers then s.(readers := s.readers[i := PollReader(s.readers[i], s.stream)]) else s
    case Join(i) => if i in s.readers then s else s.(readers := s.readers[i := Reader(|s.stream|, |s.stream|, [])])
    case Leave(i) => s.(readers := s.readers - {i})
  }

  lemma WriteKeepsReader(r: Reader, stream: seq<byte>, data: seq<byte>)
    requires ReaderOk(r, stream)
    ensures ReaderOk(r, stream + data)
  {
    forall k | 0 <= k < |r.log|
      ensures DeliveryOk(r.log[k], k, stream + data)
    {
      var d := r.log[k];
      assert DeliveryOk(d, k, stream);
      assert (stream + data)[d.start..d.start + SEGMENT] == stream[d.start..d.start + SEGMENT];
    }
  }

  lemma PollKeepsReader(r: Reader, stream: seq<byte>)
    requires ReaderOk(r, stream)
    ensures ReaderOk(PollReader(r, stream), stream)
  {
    var q := PollReader(r, stream);
    forall k | 0 <= k < |q.log|
      ensures DeliveryOk(q.log[k], k, stream) && q.joined <= q.log[k].start
      ensures forall j | 0 <= j < k :: q.log[j].start + SEGMENT <= q.log[k].start
    {
      if k < |r.log| {
        assert q.log[k] == r.log[k] && DeliveryOk(r.log[k], k, stream);
      }
    }
  }

  lemma StepKeepsRing(s: Ring, e: Event)
    requires RingOk(s)
    ensures RingOk(Step(s, e))
  {
    match e
    case Write(data) =>
      forall i | i in s.readers { WriteKeepsReader(s.readers[i], s.stream, data); }
    case Poll(i) =>
      if i in s.readers { PollKeepsReader(s.readers[i], s.stream); }
    case Join(_) =>
    case Leave(_) =>
  }

  ghost function Exec(s: Ring, es: seq<Event>): (t: Ring)
    requires RingOk(s)
    ensures RingOk(t)
    decreases |es|
  {
    if es == [] then s
    else
      StepKeepsRing(s, es[0]);
      Exec(Step(s, es[0]), es[1..])
  }

  /**
   Main result on atomic steps: after any run from an empty ring, each delivery of each
   reader is a 16384-byte window of the stream, and windows neither overlap nor go back.
   Nothing bounds the lag, so this includes lags beyond 2^32.
   */
  lemma DeliveriesAreOrderedWindows(es: seq<Event>, i: nat)
    requires i in Exec(Ring([], map[]), es).readers
    ensures var t := Exec(Ring([], map[]), es);
            var log := t.readers[i].log;
            && (forall k | 0 <= k < |log| ::
                  log[k].start + SEGMENT <= |t.stream| && log[k].bytes == t.stream[log[k].start..log[k].start + SEGMENT])
            && (forall j, k | 0 <= j < k < |log| :: log[j].start + SEGMENT <= log[k].start)
  {
    var t := Exec(Ring([], map[]), es);
    var log := t.readers[i].log;
    forall k | 0 <= k < |log|
      ensures log[k].start + SEGMENT <= |t.stream| && log[k].bytes == t.stream[log[k].start..log[k].start + SEGMENT]
    {
      assert DeliveryOk(log[k], k, t.stream);
    }
  }

  /** Slot i keeps its subscriber throughout. */
  predicate Stays(es: seq<Event>, i: nat) {
    forall k | 0 <= k < |es| :: es[k] != Leave(i)
  }

  /** Whenever the reader in slot i is handed a segment, it is at most one ring behind. */
  ghost predicate NeverLapped(s: Ring, es: seq<Event>, i: nat)
    requires RingOk(s)
    decreases |es|
  {
    es == [] ||
    (StepKeepsRing(s, es[0]);
     && (es[0] == Poll(i) && i in s.readers && NextWindow(|s.stream|, s.readers[i].pos).Some? ==>
           |s.stream| - s.readers[i].pos <= RING_SIZE)
     && NeverLapped(Step(s, es[0]), es[1..], i))
  }

  predicate Gapless(r: Reader) {
    forall k | 0 <= k < |r.log| :: r.log[k].start == r.joined + k * SEGMENT
  }

  lemma StepAndGaps(s: Ring, e: Event, i: nat)
    requires RingOk(s) && i in s.readers && e != Leave(i)
    ensures i in Step(s, e).readers && s.readers[i].log <= Step(s, e).readers[i].log
    ensures Step(s, e).readers[i].joined == s.readers[i].joined
    ensures Gapless(s.readers[i]) ==>
              (Gapless(Step(s, e).readers[i]) <==>
                 (e == Poll(i) && NextWindow(|s.stream|, s.readers[i].pos).Some? ==>
                    |s.stream| - s.readers[i].pos <= RING_SIZE))
  {
    var r := s.readers[i];
    if e == Poll(i) && NextWindow(|s.stream|, r.pos).Some? && Gapless(r) {
      var q := PollReader(r, s.stream);
      assert r.pos == r.joined + |r.log| * SEGMENT;
      assert q.log[|r.log|].start == NextWindow(|s.stream|, r.pos).value;
    }
  }

  lemma {:induction false} GapsNeverClose(s: Ring, es: seq<Event>, i: nat)
    requires RingOk(s) && i in s.readers && Stays(es, i)
    ensures i in Exec(s, es).readers && s.readers[i].log <= Exec(s, es).readers[i].log
    ensures Exec(s, es).readers[i].joined == s.readers[i].joined
    decreases |es|
  {
    if es != [] {
      StepKeepsRing(s, es[0]);
      StepAndGaps(s, es[0], i);
      GapsNeverClose(Step(s, es[0]), es[1..], i);
    }
  }

  lemma GapStays(r: Reader, later: Reader)
    requires !Gapless(r) && r.log <= later.log && r.joined == later.joined
    ensures !Gapless(later)
  {
    var k :| 0 <= k < |r.log| && r.log[k].start != r.joined + k * SEGMENT;
    assert later.log[k] == r.log[k];
  }

  /** A run is gap-free for a subscriber exactly when it is never lapped, whatever the other subscribers do. */
  lemma {:induction false} GaplessIffNeverLapped(s: Ring, es: seq<Event>, i: nat)
    requires RingOk(s) && i in s.readers && Stays(es, i) && Gapless(s.readers[i])
    ensures i in Exec(s, es).readers
    ensures NeverLapped(s, es, i) <==> Gapless(Exec(s, es).readers[i])
    decreases |es|
  {
    if es != [] {
      StepKeepsRing(s, es[0]);
      StepAndGaps(s, es[0], i);
      var t := Step(s, es[0]);
      GapsNeverClose(t, es[1..], i);
      if Gapless(t.readers[i]) {
        GaplessIffNeverLapped(t, es[1..], i);
      } else {
        GapStays(t.readers[i], Exec(t, es[1..]).readers[i]);
      }
    }
  }

  function Concat(log: seq<Delivery>): seq<byte> {
    if log == [] then [] else Concat(log[..|log| - 1]) + log[|log| - 1].bytes
  }

  lemma JoinSlices(s: seq<byte>, a: nat, b: nat, c: nat)
    requires a <= b <= c <= |s|
    ensures s[a..b] + s[b..c] == s[a..c]
  {
  }

  lemma ConcatNext(log: seq<Delivery>, n: nat)
    requires 0 < n <= |log|
    ensures Concat(log[..n]) == Concat(log[..n - 1]) + log[n - 1].bytes
  {
    assert log[..n][..n - 1] == log[..n - 1];
  }

  lemma {:induction false} GaplessConcat(r: Reader, stream: seq<byte>, n: nat)
    requires ReaderOk(r, stream) && Gapless(r) && n <= |r.log|
    ensures r.joined + n * SEGMENT <= |stream|
    ensures Concat(r.log[..n]) == stream[r.joined..r.joined + n * SEGMENT]
  {
    if n > 0 {
      GaplessConcat(r, stream, n - 1);
      var d, at := r.log[n - 1], r.joined + (n - 1) * SEGMENT;
      assert DeliveryOk(d, n - 1, stream) && d.start == at;
      ConcatNext(r.log, n);
      JoinSlices(stream, r.joined, at, at + SEGMENT);
    }
  }

  lemma GaplessHears(r: Reader, stream: seq<byte>)
    requires ReaderOk(r, stream) && Gapless(r)
    ensures Concat(r.log) == stream[r.joined..r.pos]
  {
    GaplessConcat(r, stream, |r.log|);
    assert r.log[..|r.log|] == r.log;
    if r.log != [] {
      assert r.log[|r.log| - 1].start == r.joined + (|r.log| - 1) * SEGMENT;
    }
  }

  /**
   A subscriber that is never lapped hears the stream itself from the point it joined:
   its deliveries, put end to end, are exactly the bytes between there and its position.
   */
  lemma NeverLappedHearsTheStream(s: Ring, es: seq<Event>, i: nat)
    requires RingOk(s) && i in s.readers && s.readers[i].log == [] && Stays(es, i) && NeverLapped(s, es, i)
    ensures i in Exec(s, es).readers
    ensures var r := Exec(s, es).readers[i];
            r.joined == s.readers[i].joined && ReaderOk(r, Exec(s, es).stream) &&
            Concat(r.log) == Exec(s, es).stream[r.joined..r.pos]
  {
    assert Gapless(s.readers[i]);
    GaplessIffNeverLapped(s, es, i);
    GapsNeverClose(s, es, i);
    GaplessHears(Exec(s, es).readers[i], Exec(s, es).stream);
  }

  predicate Concerns(e: Event, i: nat) {
    e.Write? || e.slot == i
  }

  function Only(es: seq<Event>, i: nat): seq<Event> {
    if es == [] then []
    else if Concerns(es[0], i) then [es[0]] + Only(es[1..], i)
    else Only(es[1..], i)
  }

  ghost predicate SameFor(s: Ring, t: Ring, i: nat) {
    && s.stream == t.stream
    && (i in s.readers <==> i in t.readers)
    && (i in s.readers ==> s.readers[i] == t.readers[i])
  }

  lemma StepsAgree(s: Ring, t: Ring, e: Event, i: nat)
    requires RingOk(s) && RingOk(t) && SameFor(s, t, i)
    ensures Concerns(e, i) ==> SameFor(Step(s, e), Step(t, e), i)
    ensures !Concerns(e, i) ==> SameFor(Step(s, e), t, i)
  {
  }

  /** Striking every step of the other subscribers from a run changes nothing for the one in slot i. */
  lemma {:induction false} OthersDoNotMatter(s: Ring, t: Ring, es: seq<Event>, i: nat)
    requires RingOk(s) && RingOk(t) && SameFor(s, t, i)
    ensures SameFor(Exec(s, es), Exec(t, Only(es, i)), i)
    decreases |es|
  {
    if es != [] {
      StepKeepsRing(s, es[0]);
      StepKeepsRing(t, es[0]);
      StepsAgree(s, t, es[0], i);
      if Concerns(es[0], i) {
        assert Only(es, i)[1..] == Only(es[1..], i);
        OthersDoNotMatter(Step(s, es[0]), Step(t, es[0]), es[1..], i);
      } else {
        OthersDoNotMatter(Step(s, es[0]), t, es[1..], i);
      }
    }
  }

  predicate EvenWrites(es: seq<Event>) {
    forall k | 0 <= k < |es| && es[k].Write? :: |es[k].data| % 2 == 0
  }

  ghost predicate SampleAligned(s: Ring) {
    |s.stream| % 2 == 0 && forall i | i in s.readers :: ReaderAligned(s.readers[i])
  }

  predicate ReaderAligned(r: Reader) {
    r.pos % 2 == 0 && forall k | 0 <= k < |r.log| :: r.log[k].start % 2 == 0
  }

  lemma EvenWindow(written: nat, pos: nat)
    requires pos <= written && written % 2 == 0 && pos % 2 == 0
    ensures NextWindow(written, pos).Some? ==> NextWindow(written, pos).value % 2 == 0
  {
    var lag := (written - pos) / 2;
    assert U32(written - pos) == 2 * (lag % 0x8000_0000);
  }

  lemma PollKeepsAlignment(r: Reader, stream: seq<byte>)
    requires r.pos <= |stream| && |stream| % 2 == 0 && ReaderAligned(r)
    ensures ReaderAligned(PollReader(r, stream))
  {
    EvenWindow(|stream|, r.pos);
    var q, start := PollReader(r, stream), NextWindow(|stream|, r.pos);
    if start.Some? {
      assert q.pos == start.value + SEGMENT && q.pos % 2 == 0;
      forall k | 0 <= k < |q.log|
        ensures q.log[k].start % 2 == 0
      {
        assert q.log[k].start == if k < |r.log| then r.log[k].start else start.value;
      }
    }
  }

  lemma StepKeepsAlignment(s: Ring, e: Event)
    requires RingOk(s) && SampleAligned(s) && (e.Write? ==> |e.data| % 2 == 0)
    ensures SampleAligned(Step(s, e))
  {
    match e
    case Write(data) => assert |s.stream + data| % 2 == 0;
    case Poll(i) =>
      if i in s.readers {
        PollKeepsAlignment(s.readers[i], s.stream);
      }
    case Join(_) =>
    case Leave(_) =>
  }

  /** With even-length writes every delivery starts on an I sample, catch-up and counter wrap included. */
  lemma {:induction false} DeliveriesStartOnISamples(s: Ring, es: seq<Event>)
    requires RingOk(s) && SampleAligned(s) && EvenWrites(es)
    ensures SampleAligned(Exec(s, es))
    decreases |es|
  {
    if es != [] {
      StepKeepsRing(s, es[0]);
      StepKeepsAlignment(s, es[0]);
      DeliveriesStartOnISamples(Step(s, es[0]), es[1..]);
    }
  }
}
