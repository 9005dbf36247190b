/**
 The ring below memcpy: the writer and every consumer move one byte at a time, in any order
 within a copy, and interleave freely. Control uses only the wrapped 32-bit positions; true
 positions, and the stream position each cell's byte came from, are carried along to state
 what the copies mean.
 */
module RingInterleaving {
  import opened Words
  import opened RingSpec
  import opened RingBuffer

  /** `done` holds the offsets of the current write that have reached memory. */
  datatype Writer = Idle | Copying(data: seq<byte>, done: set<nat>)

  /** A segment on its way out: `from[k]` is the stream position byte k really came from,
      `late` the offsets read after the writer had reused their cell. */
  datatype Phase = Waiting | Fetching(start: nat, buf: map<nat, byte>, from: map<nat, int>, late: set<nat>)

  /** What the callback gets, and where its bytes really came from. */
  datatype Segment = Segment(start: nat, bytes: seq<byte>, sequence: nat, from: seq<int>, late: set<nat>)

  /** `rp` and `sequence` are the driver's own; `joined` and `pos` are true positions. */
  datatype Consumer = Consumer(joined: nat, rp: nat, pos: nat, sequence: nat, pc: Phase, log: seq<Segment>)

  /** A consumer that has just started, at stream position `at`. */
  function Started(at: nat): Consumer {
    Consumer(at, U32(at), at, 0, Waiting, [])
  }

  datatype State = State(
    stream: seq<byte>,
    wp: nat,
    writer: Writer,
    cells: seq<byte>,
    origin: seq<int>,
    readers: seq<Consumer>)

  datatype Event =
    | BeginWrite(data: seq<byte>)
    | CopyByte(j: nat)
    | Publish
    | Attach(i: nat)
    | Look(i: nat)
    | FetchByte(i: nat, k: nat)
    | Deliver(i: nat)

  ghost function Init(readers: nat): State {
    State([], 0, Idle, seq(RING_SIZE, _ => SILENCE), seq(RING_SIZE, c => c - RING_SIZE),
          seq(readers, _ => Started(0)))
  }

  /** Where byte n of a copy that starts at position `at` lives: the copy is split at the end of the array. */
  function Address(at: nat, n: nat): (c: nat)
    requires n < RING_SIZE
    ensures c < RING_SIZE
  {
    var first := RING_SIZE - at % RING_SIZE;
    if n < first then at % RING_SIZE + n else n - first
  }

  /** All of the segment has been copied out. */
  predicate Full(r: Consumer) {
    r.pc.Fetching? && forall k | 0 <= k < SEGMENT :: k in r.pc.buf && k in r.pc.from
  }

  predicate Enabled(s: State, e: Event) {
    match e
    case BeginWrite(data) => s.writer.Idle? && 0 < |data| <= RING_SIZE
    case CopyByte(j) => s.writer.Copying? && j < |s.writer.data| <= RING_SIZE && |s.cells| == |s.origin| == RING_SIZE
    case Publish => s.writer.Copying? && forall j | 0 <= j < |s.writer.data| :: j in s.writer.done
    case Attach(i) => i < |s.readers|
    case Look(i) => i < |s.readers| && s.readers[i].pc.Waiting? && s.readers[i].pos <= |s.stream|
    case FetchByte(i, k) =>
      && i < |s.readers| && s.readers[i].pc.Fetching? && k < SEGMENT && k !in s.readers[i].pc.buf
      && |s.cells| == |s.origin| == RING_SIZE
    case Deliver(i) => i < |s.readers| && Full(s.readers[i])
  }

  /** The consumer's test: it reads write_pos, works out the lag in 32 bits, and catches up when lapped. */
  function LookAt(r: Consumer, wp: nat, written: nat): Consumer
    requires r.pos <= written
  {
    var avail := U32(wp - r.rp);
    if avail < SEGMENT then r
    else
      var rp := if avail > RING_SIZE then U32(wp - SEGMENT) else r.rp;
      match NextWindow(written, r.pos)
      case None => r
      case Some(start) => r.(rp := rp, pc := Fetching(start, map[], map[], {}))
  }

  /** Stream position q has been written to memory, published or not. */
  predicate Written(s: State, q: nat) {
    q < |s.stream| || (s.writer.Copying? && q - |s.stream| in s.writer.done)
  }

  function Fetch(s: State, r: Consumer, k: nat): Consumer
    requires r.pc.Fetching? && k < SEGMENT && |s.cells| == |s.origin| == RING_SIZE
  {
    var c := Address(r.rp, k);
    var pc := r.pc;
    r.(pc := Fetching(pc.start, pc.buf[k := s.cells[c]], pc.from[k := s.origin[c]],
                      if Written(s, pc.start + k + RING_SIZE) then pc.late + {k} else pc.late))
  }

  function Finish(r: Consumer): Consumer
    requires Full(r)
  {
    var pc := r.pc;
    Consumer(r.joined, U32(r.rp + SEGMENT), pc.start + SEGMENT, U32(r.sequence + 1), Waiting,
             r.log + [Segment(pc.start, seq(SEGMENT, k requires 0 <= k < SEGMENT => pc.buf[k]), r.sequence,
                              seq(SEGMENT, k requires 0 <= k < SEGMENT => pc.from[k]), pc.late)])
  }

  /** One step; a step that is not enabled changes nothing. */
  function Apply(s: State, e: Event): State {
    if !Enabled(s, e) then s
    else
      match e
      case BeginWrite(data) => s.(writer := Copying(data, {}))
      case CopyByte(j) =>
        var c := Address(s.wp, j % RING_SIZE);
        s.(cells := s.cells[c := s.writer.data[j]], origin := s.origin[c := |s.stream| + j],
           writer := s.writer.(done := s.writer.done + {j}))
      case Publish =>
        s.(stream := s.stream + s.writer.data, wp := U32(s.wp + |s.writer.data|), writer := Idle)
      case Attach(i) => s.(readers := s.readers[i := Started(|s.stream|).(rp := s.wp)])
      case Look(i) => s.(readers := s.readers[i := LookAt(s.readers[i], s.wp, |s.stream|)])
      case FetchByte(i, k) => s.(readers := s.readers[i := Fetch(s, s.readers[i], k)])
      case Deliver(i) => s.(readers := s.readers[i := Finish(s.readers[i])])
  }

  function Run(s: State, es: seq<Event>): State {
    if es == [] then s else Apply(Run(s, es[..|es| - 1]), es[|es| - 1])
  }

  // ---- Memory ----

  /** Everything handed to the writer so far, published or in flight. */
  function Physical(s: State): seq<byte> {
    if s.writer.Copying? then s.stream + s.writer.data else s.stream
  }

  /** The stream position whose byte cell c holds; negative before the first lap reaches it. */
  function OriginOf(s: State, c: nat): int {
    var j := (c - |s.stream|) % RING_SIZE;
    if s.writer.Copying? && j in s.writer.done then |s.stream| + j else |s.stream| + j - RING_SIZE
  }

  ghost predicate CellOk(s: State, c: nat)
    requires c < |s.cells| && c < |s.origin|
  {
    && s.origin[c] == OriginOf(s, c)
    && (if s.origin[c] < 0 then s.cells[c] == SILENCE
        else s.origin[c] < |Physical(s)| && s.cells[c] == Physical(s)[s.origin[c]])
  }

  ghost predicate MemoryOk(s: State) {
    && |s.cells| == |s.origin| == RING_SIZE
    && s.wp == U32(|s.stream|)
    && (s.writer.Copying? ==>
          0 < |s.writer.data| <= RING_SIZE && forall j | j in s.writer.done :: j < |s.writer.data|)
    && forall c | 0 <= c < RING_SIZE :: CellOk(s, c)
  }

  lemma AddressIsOffset(q: nat, n: nat)
    requires n < RING_SIZE
    ensures Address(U32(q), n) == (q + n) % RING_SIZE
  {
    WrappedCell(q);
    CellAtOffset(n, q);
  }

  /** A published byte is still in memory exactly while its successor one lap later is not. */
  lemma OriginOfPublished(s: State, p: nat)
    requires MemoryOk(s) && p < |s.stream|
    ensures var o := s.origin[p % RING_SIZE];
            && o % RING_SIZE == p % RING_SIZE
            && (o == p <==> !Written(s, p + RING_SIZE))
            && (o != p ==> o >= p + RING_SIZE)
            && o < |Physical(s)| && s.cells[p % RING_SIZE] == Physical(s)[o]
  {
    assert CellOk(s, p % RING_SIZE);
    LapBefore(p, |s.stream|);
  }

  /** Of the positions congruent to p, the one in the lap that ends at w is p itself or at least a lap later. */
  lemma LapBefore(p: nat, w: nat)
    requires p < w
    ensures var j := (p % RING_SIZE - w) % RING_SIZE;
            && (w + j) % RING_SIZE == (w + j - RING_SIZE) % RING_SIZE == p % RING_SIZE
            && (w + j == p + RING_SIZE || w + j >= p + 2 * RING_SIZE)
  {
    var j := (p % RING_SIZE - w) % RING_SIZE;
    var a, b := p / RING_SIZE, (p % RING_SIZE - w) / RING_SIZE;
    assert p == RING_SIZE * a + p % RING_SIZE && p % RING_SIZE - w == RING_SIZE * b + j;
    assert w + j - p == RING_SIZE * (-b - a);
    Congruent(w + j, p, -b - a);
    Congruent(w + j - RING_SIZE, p, -b - a - 1);
  }

  lemma BeginKeepsMemory(s: State, data: seq<byte>)
    requires MemoryOk(s) && Enabled(s, BeginWrite(data))
    ensures MemoryOk(Apply(s, BeginWrite(data)))
  {
    var t := Apply(s, BeginWrite(data));
    forall c | 0 <= c < RING_SIZE
      ensures CellOk(t, c)
    {
      assert CellOk(s, c);
    }
  }

  /** A cell after a byte of the write under way has been put at its offset, or somewhere else. */
  lemma CellAfter(s: State, t: State, c: nat, j: nat, offset: nat)
    requires c < RING_SIZE && |s.cells| == |s.origin| == |t.cells| == |t.origin| == RING_SIZE && CellOk(s, c)
    requires s.writer.Copying? && j < |s.writer.data| && offset == (c - |s.stream|) % RING_SIZE
    requires t == s.(cells := t.cells, origin := t.origin, writer := s.writer.(done := s.writer.done + {j}))
    requires if offset == j then t.cells[c] == s.writer.data[j] && t.origin[c] == |s.stream| + j
             else t.cells[c] == s.cells[c] && t.origin[c] == s.origin[c]
    ensures CellOk(t, c)
  {
    assert Physical(t) == Physical(s);
  }

  lemma CopyKeepsCell(s: State, j: nat, c: nat)
    requires MemoryOk(s) && Enabled(s, CopyByte(j)) && j < RING_SIZE && c < RING_SIZE
    ensures var t := Apply(s, CopyByte(j)); |t.cells| == |t.origin| == RING_SIZE && CellOk(t, c)
  {
    var offset := AddressOffset(s.wp, |s.stream|, j, c);
    CellAfter(s, Apply(s, CopyByte(j)), c, j, offset);
  }

  lemma AddressOffset(wp: nat, w: nat, j: nat, c: nat) returns (offset: nat)
    requires wp == U32(w) && j < RING_SIZE && c < RING_SIZE
    ensures offset == (c - w) % RING_SIZE && (offset == j <==> c == Address(wp, j))
  {
    AddressIsOffset(w, j);
    OneOffset(c, w, j);
    offset := (c - w) % RING_SIZE;
  }

  lemma CopyKeepsMemory(s: State, j: nat)
    requires MemoryOk(s) && Enabled(s, CopyByte(j))
    ensures MemoryOk(Apply(s, CopyByte(j)))
  {
    if j == RING_SIZE {
      assert false;
    }
    forall c | 0 <= c < RING_SIZE
      ensures CellOk(Apply(s, CopyByte(j)), c)
    {
      CopyKeepsCell(s, j, c);
    }
  }

  lemma OneOffset(c: nat, w: nat, j: nat)
    requires c < RING_SIZE && j < RING_SIZE
    ensures (c - w) % RING_SIZE == j <==> c == (w + j) % RING_SIZE
  {
  }

  lemma LaterOffset(c: nat, w: nat, n: nat)
    requires n <= RING_SIZE
    ensures var j := (c - w) % RING_SIZE;
            (c - (w + n)) % RING_SIZE == if j < n then j - n + RING_SIZE else j - n
  {
  }

  lemma PublishKeepsMemory(s: State)
    requires MemoryOk(s) && Enabled(s, Publish)
    ensures MemoryOk(Apply(s, Publish))
  {
    var t := Apply(s, Publish);
    var w, n := |s.stream|, |s.writer.data|;
    U32Left(w, n);
    forall c | 0 <= c < RING_SIZE
      ensures CellOk(t, c)
    {
      assert CellOk(s, c);
      LaterOffset(c, w, n);
      assert OriginOf(t, c) == OriginOf(s, c);
    }
  }

  // ---- Readers ----

  /** Byte k of a segment: it came from its own position, or, if it was read late, from one or more laps ahead. */
  ghost predicate ByteOk(s: State, start: nat, k: nat, b: byte, from: int, late: set<nat>) {
    && 0 <= from < |Physical(s)| && b == Physical(s)[from]
    && from % RING_SIZE == (start + k) % RING_SIZE
    && (from == start + k <==> k !in late)
    && (k in late ==> from >= start + k + RING_SIZE && Written(s, start + k + RING_SIZE))
  }

  ghost predicate SegmentOk(s: State, d: Segment) {
    && |d.bytes| == |d.from| == SEGMENT && d.start + SEGMENT <= |s.stream|
    && forall k | 0 <= k < SEGMENT :: ByteOk(s, d.start, k, d.bytes[k], d.from[k], d.late)
  }

  ghost predicate FetchOk(s: State, r: Consumer) {
    r.pc.Fetching? ==>
      && r.pos <= r.pc.start && r.pc.start + SEGMENT <= |s.stream| && r.rp == U32(r.pc.start)
      && r.pc.buf.Keys == r.pc.from.Keys
      && (forall k | k in r.pc.buf :: k < SEGMENT && ByteOk(s, r.pc.start, k, r.pc.buf[k], r.pc.from[k], r.pc.late))
      && (forall k | k in r.pc.late :: k in r.pc.buf)
  }

  ghost predicate LogOk(s: State, r: Consumer) {
    && r.sequence == U32(|r.log|)
    && (forall n | 0 <= n < |r.log| ::
          SegmentOk(s, r.log[n]) && r.log[n].sequence == U32(n) && r.joined <= r.log[n].start && r.log[n].start + SEGMENT <= r.pos)
    && (forall m, n | 0 <= m < n < |r.log| :: r.log[m].start + SEGMENT <= r.log[n].start)
  }

  ghost predicate ReaderInv(s: State, r: Consumer) {
    && r.joined <= r.pos <= |s.stream|
    && (r.pc.Waiting? ==> r.rp == U32(r.pos))
    && FetchOk(s, r)
    && LogOk(s, r)
  }

  ghost predicate Inv(s: State) {
    MemoryOk(s) && forall i | 0 <= i < |s.readers| :: ReaderInv(s, s.readers[i])
  }

  /** The writer only ever adds: to the stream, to memory, to what it was handed. */
  ghost predicate Grows(s: State, t: State) {
    && |s.stream| <= |t.stream|
    && Physical(s) <= Physical(t)
    && forall q: nat | Written(s, q) :: Written(t, q)
  }

  lemma ApplyGrows(s: State, e: Event)
    requires MemoryOk(s)
    ensures Grows(s, Apply(s, e))
  {
    var t := Apply(s, e);
    if e.Publish? && Enabled(s, e) {
      forall q: nat | Written(s, q)
        ensures Written(t, q)
      {
        if q >= |s.stream| {
          var j := q - |s.stream|;
          assert j in s.writer.done;
        }
      }
    }
  }

  lemma GrowthKeepsBytes(s: State, t: State, start: nat, k: nat, b: byte, from: int, late: set<nat>)
    requires Grows(s, t) && ByteOk(s, start, k, b, from, late)
    ensures ByteOk(t, start, k, b, from, late)
  {
  }

  lemma GrowthKeepsReader(s: State, t: State, r: Consumer)
    requires Grows(s, t) && ReaderInv(s, r)
    ensures ReaderInv(t, r)
  {
    if r.pc.Fetching? {
      forall k | k in r.pc.buf
        ensures ByteOk(t, r.pc.start, k, r.pc.buf[k], r.pc.from[k], r.pc.late)
      {
        GrowthKeepsBytes(s, t, r.pc.start, k, r.pc.buf[k], r.pc.from[k], r.pc.late);
      }
    }
    forall n | 0 <= n < |r.log|
      ensures SegmentOk(t, r.log[n])
    {
      var d := r.log[n];
      forall k | 0 <= k < SEGMENT
        ensures ByteOk(t, d.start, k, d.bytes[k], d.from[k], d.late)
      {
        GrowthKeepsBytes(s, t, d.start, k, d.bytes[k], d.from[k], d.late);
      }
    }
  }

  lemma LookKeepsReader(s: State, r: Consumer)
    requires MemoryOk(s) && ReaderInv(s, r) && r.pc.Waiting?
    ensures ReaderInv(s, LookAt(r, s.wp, |s.stream|))
  {
    WindowInWords(|s.stream|, r.pos);
  }

  lemma FetchKeepsReader(s: State, r: Consumer, k: nat)
    requires MemoryOk(s) && ReaderInv(s, r) && r.pc.Fetching? && k < SEGMENT && k !in r.pc.buf
    ensures ReaderInv(s, Fetch(s, r, k))
  {
    var q, start := Fetch(s, r, k), r.pc.start;
    AddressIsOffset(start, k);
    OriginOfPublished(s, start + k);
    assert ByteOk(s, start, k, q.pc.buf[k], q.pc.from[k], q.pc.late);
    forall m | m in q.pc.buf
      ensures m < SEGMENT && ByteOk(s, start, m, q.pc.buf[m], q.pc.from[m], q.pc.late)
    {
      if m != k {
        assert ByteOk(s, start, m, r.pc.buf[m], r.pc.from[m], r.pc.late);
      }
    }
    assert FetchOk(s, q);
  }

  /** A segment copied out whole is in order. */
  lemma FinishedSegment(s: State, r: Consumer)
    requires FetchOk(s, r) && Full(r)
    ensures SegmentOk(s, Finish(r).log[|r.log|])
  {
    var d := Finish(r).log[|r.log|];
    forall k | 0 <= k < SEGMENT
      ensures ByteOk(s, d.start, k, d.bytes[k], d.from[k], d.late)
    {
      assert ByteOk(s, r.pc.start, k, r.pc.buf[k], r.pc.from[k], r.pc.late);
    }
  }

  lemma LogGrows(s: State, r: Consumer, q: Consumer, d: Segment)
    requires LogOk(s, r) && SegmentOk(s, d) && q.log == r.log + [d] && q.joined == r.joined <= r.pos <= d.start
    requires d.sequence == r.sequence && q.sequence == U32(r.sequence + 1) && q.pos == d.start + SEGMENT
    ensures LogOk(s, q)
  {
    U32Left(|r.log|, 1);
    forall n | 0 <= n < |q.log|
      ensures SegmentOk(s, q.log[n]) && q.log[n].sequence == U32(n) && q.joined <= q.log[n].start && q.log[n].start + SEGMENT <= q.pos
    {
      assert n < |r.log| ==> q.log[n] == r.log[n];
    }
  }

  lemma FinishKeepsReader(s: State, r: Consumer)
    requires ReaderInv(s, r) && Full(r)
    ensures ReaderInv(s, Finish(r))
  {
    var q := Finish(r);
    FinishedSegment(s, r);
    LogGrows(s, r, q, q.log[|r.log|]);
    U32Left(r.pc.start, SEGMENT);
  }

  lemma ApplyKeepsMemory(s: State, e: Event)
    requires MemoryOk(s) && Enabled(s, e)
    ensures MemoryOk(Apply(s, e))
  {
    match e {
      case BeginWrite(data) => BeginKeepsMemory(s, data);
      case CopyByte(j) => CopyKeepsMemory(s, j);
      case Publish => PublishKeepsMemory(s);
      case Attach(_) => MemoryUnchanged(s, Apply(s, e));
      case Look(_) => MemoryUnchanged(s, Apply(s, e));
      case FetchByte(_, _) => MemoryUnchanged(s, Apply(s, e));
      case Deliver(_) => MemoryUnchanged(s, Apply(s, e));
    }
  }

  /** What a step makes of a consumer is right by the state before it. */
  lemma ApplyKeepsReaders(s: State, e: Event, n: nat)
    requires Inv(s) && Enabled(s, e) && n < |Apply(s, e).readers|
    ensures ReaderInv(s, Apply(s, e).readers[n])
  {
    assert n < |s.readers| ==> ReaderInv(s, s.readers[n]);
    match e {
      case BeginWrite(_) =>
      case CopyByte(_) =>
      case Publish =>
      case Attach(i) =>
      case Look(i) => if n == i { LookKeepsReader(s, s.readers[i]); }
      case FetchByte(i, k) => if n == i { FetchKeepsReader(s, s.readers[i], k); }
      case Deliver(i) => if n == i { FinishKeepsReader(s, s.readers[i]); }
    }
  }

  lemma ApplyKeepsInv(s: State, e: Event)
    requires Inv(s)
    ensures Inv(Apply(s, e))
  {
    if Enabled(s, e) {
      var t := Apply(s, e);
      ApplyGrows(s, e);
      ApplyKeepsMemory(s, e);
      forall n | 0 <= n < |t.readers|
        ensures ReaderInv(t, t.readers[n])
      {
        ApplyKeepsReaders(s, e, n);
        GrowthKeepsReader(s, t, t.readers[n]);
      }
    }
  }

  lemma MemoryUnchanged(s: State, t: State)
    requires MemoryOk(s) && t == s.(readers := t.readers)
    ensures MemoryOk(t)
  {
    forall c | 0 <= c < RING_SIZE
      ensures CellOk(t, c)
    {
      assert CellOk(s, c);
    }
  }

  lemma InitOk(readers: nat)
    ensures Inv(Init(readers))
  {
    var s := Init(readers);
    forall c | 0 <= c < RING_SIZE
      ensures CellOk(s, c)
    {
    }
  }

  lemma {:induction false} EveryRunKeepsInv(s: State, es: seq<Event>)
    requires Inv(s)
    ensures Inv(Run(s, es))
  {
    if es != [] {
      EveryRunKeepsInv(s, es[..|es| - 1]);
      ApplyKeepsInv(Run(s, es[..|es| - 1]), es[|es| - 1]);
    }
  }

  // ---- What a run delivers ----

  /** d is exactly the stretch of the stream it claims to be. */
  ghost predicate Exact(d: Segment, stream: seq<byte>) {
    d.start + SEGMENT <= |stream| && d.bytes == stream[d.start..d.start + SEGMENT]
  }

  lemma SegmentMeaning(s: State, d: Segment)
    requires SegmentOk(s, d)
    ensures forall k | 0 <= k < SEGMENT ::
              && d.start + k <= d.from[k] < |Physical(s)| && d.from[k] % RING_SIZE == (d.start + k) % RING_SIZE
              && d.bytes[k] == Physical(s)[d.from[k]]
              && (d.from[k] == d.start + k <==> k !in d.late)
    ensures (forall k | 0 <= k < SEGMENT :: d.from[k] == d.start + k) <==> (forall k | 0 <= k < SEGMENT :: k !in d.late)
    ensures (forall k | 0 <= k < SEGMENT :: k !in d.late) ==> Exact(d, s.stream)
  {
    assert forall k | 0 <= k < SEGMENT :: ByteOk(s, d.start, k, d.bytes[k], d.from[k], d.late);
    if forall k | 0 <= k < SEGMENT :: d.from[k] == d.start + k {
      forall k | 0 <= k < SEGMENT
        ensures k !in d.late
      {
        assert d.from[k] == d.start + k;
      }
    }
    if forall k | 0 <= k < SEGMENT :: k !in d.late {
      forall k | 0 <= k < SEGMENT
        ensures d.bytes[k] == s.stream[d.start + k]
      {
        assert ByteOk(s, d.start, k, d.bytes[k], d.from[k], d.late);
      }
    }
  }

  lemma RunSnoc(s: State, es: seq<Event>, e: Event)
    ensures Run(s, es + [e]) == Apply(Run(s, es), e)
  {
    assert (es + [e])[..|es|] == es;
  }

  lemma RunOne(s: State, e: Event)
    ensures Run(s, [e]) == Apply(s, e)
  {
    assert [e][..0] == [];
  }

  /**
   Every byte is one the writer was handed, from its own position or from a whole number of laps
   later; all come from their own positions iff none was read after its cell had been reused,
   and then the segment is the stream's.
   */
  ghost predicate Accounted(s: State, d: Segment) {
    && |d.bytes| == |d.from| == SEGMENT && d.start + SEGMENT <= |s.stream|
    && (forall k | 0 <= k < SEGMENT ::
          && d.start + k <= d.from[k] < |Physical(s)| && d.from[k] % RING_SIZE == (d.start + k) % RING_SIZE
          && d.bytes[k] == Physical(s)[d.from[k]])
    && ((forall k | 0 <= k < SEGMENT :: d.from[k] == d.start + k) <==> (forall k | 0 <= k < SEGMENT :: k !in d.late))
    && ((forall k | 0 <= k < SEGMENT :: k !in d.late) ==> Exact(d, s.stream))
  }

  /**
   Main result on interleaved steps. Whatever the interleaving, every segment delivered is
   accounted for, and the windows of a subscription neither overlap nor go back.
   */
  lemma EveryDelivery(readers: nat, es: seq<Event>, i: nat, n: nat)
    requires var s := Run(Init(readers), es); i < |s.readers| && n < |s.readers[i].log|
    ensures var s := Run(Init(readers), es); var d := s.readers[i].log[n];
            Accounted(s, d) && d.sequence == U32(n) && forall m | 0 <= m < n :: s.readers[i].log[m].start + SEGMENT <= d.start
  {
    InitOk(readers);
    EveryRunKeepsInv(Init(readers), es);
    DeliveryMeaning(Run(Init(readers), es), i, n);
  }

  lemma DeliveryMeaning(s: State, i: nat, n: nat)
    requires Inv(s) && i < |s.readers| && n < |s.readers[i].log|
    ensures var d := s.readers[i].log[n];
            Accounted(s, d) && d.sequence == U32(n) && forall m | 0 <= m < n :: s.readers[i].log[m].start + SEGMENT <= d.start
  {
    assert ReaderInv(s, s.readers[i]);
    SegmentMeaning(s, s.readers[i].log[n]);
  }

  /** The writer's physical cursor, bytes copied but not yet published included, is at most `limit`. */
  ghost predicate CursorWithin(s: State, limit: nat) {
    forall q: nat | Written(s, q) :: q < limit
  }

  predicate LeavesAlone(e: Event, i: nat) {
    e.BeginWrite? || e.CopyByte? || e.Publish? || e.i != i
  }

  lemma {:induction false} OthersLeaveReaderAlone(s: State, es: seq<Event>, i: nat)
    requires i < |s.readers| && forall n | 0 <= n < |es| :: LeavesAlone(es[n], i)
    ensures |Run(s, es).readers| == |s.readers| && Run(s, es).readers[i] == s.readers[i]
  {
    if es != [] {
      OthersLeaveReaderAlone(s, es[..|es| - 1], i);
    }
  }

  /**
   If the cursor is at most one ring past the segment's start when its last byte has been
   copied out, the segment delivered is the stream's, whatever the writer and the other
   consumers do between the end of the copy and the callback.
   */
  lemma ExactWhileCursorBehind(readers: nat, es: seq<Event>, rest: seq<Event>, i: nat)
    requires var s := Run(Init(readers), es);
             i < |s.readers| && Full(s.readers[i]) && CursorWithin(s, s.readers[i].pc.start + RING_SIZE)
    requires forall n | 0 <= n < |rest| :: LeavesAlone(rest[n], i)
    ensures var s := Run(Init(readers), es); var t := Apply(Run(s, rest), Deliver(i));
            && i < |t.readers| && |t.readers[i].log| == |s.readers[i].log| + 1
            && t.readers[i].log[|s.readers[i].log|].start == s.readers[i].pc.start
            && Exact(t.readers[i].log[|s.readers[i].log|], t.stream)
  {
    InitOk(readers);
    EveryRunKeepsInv(Init(readers), es);
    var s := Run(Init(readers), es);
    EveryRunKeepsInv(s, rest);
    OthersLeaveReaderAlone(s, rest, i);
    var u := Run(s, rest);
    var t := Apply(u, Deliver(i));
    ApplyKeepsInv(u, Deliver(i));
    var r := s.readers[i];
    assert ReaderInv(s, r);
    forall k | 0 <= k < SEGMENT
      ensures k !in r.pc.late
    {
      assert ByteOk(s, r.pc.start, k, r.pc.buf[k], r.pc.from[k], r.pc.late);
    }
    assert ReaderInv(t, t.readers[i]);
    SegmentMeaning(t, t.readers[i].log[|r.log|]);
  }

  // ---- The condition is needed ----

  lemma {:induction false} RunAppend(s: State, es: seq<Event>, fs: seq<Event>)
    ensures Run(s, es + fs) == Run(Run(s, es), fs)
  {
    if fs == [] {
      assert es + fs == es;
    } else {
      RunAppend(s, es, fs[..|fs| - 1]);
      assert (es + fs)[..|es + fs| - 1] == es + fs[..|fs| - 1];
    }
  }

  /** From s, exactly the first n bytes of the write have been copied, and nothing else has happened. */
  ghost predicate CopiedFrom(s: State, t: State, n: nat) {
    && t == s.(writer := t.writer, cells := t.cells, origin := t.origin) && |t.cells| == |t.origin| == RING_SIZE
    && s.writer.Copying? && t.writer.Copying? && t.writer.data == s.writer.data
    && forall j: nat :: j in t.writer.done <==> j < n
  }

  lemma CopyOne(s: State, t: State, n: nat)
    requires CopiedFrom(s, t, n) && n < |s.writer.data| <= RING_SIZE
    ensures CopiedFrom(s, Apply(t, CopyByte(n)), n + 1)
  {
  }

  lemma {:induction false} CopySome(s: State, n: nat) returns (es: seq<Event>)
    requires |s.cells| == |s.origin| == RING_SIZE
    requires s.writer.Copying? && s.writer.done == {} && n <= |s.writer.data| <= RING_SIZE
    ensures CopiedFrom(s, Run(s, es), n) && forall k | 0 <= k < |es| :: es[k].CopyByte?
  {
    if n == 0 {
      es := [];
    } else {
      var before := CopySome(s, n - 1);
      CopyOne(s, Run(s, before), n - 1);
      es := before + [CopyByte(n - 1)];
      RunSnoc(s, before, CopyByte(n - 1));
    }
  }

  /** No write longer than what the driver's own callers hand over at once. */
  predicate Modest(es: seq<Event>) {
    forall k | 0 <= k < |es| && es[k].BeginWrite? :: |es[k].data| <= SEGMENT
  }

  lemma WriteAll(s: State, data: seq<byte>) returns (es: seq<Event>)
    requires Inv(s) && s.writer.Idle? && 0 < |data| <= SEGMENT
    ensures var t := Run(s, es); t.writer.Idle? && t.stream == s.stream + data && t.readers == s.readers
    ensures Modest(es)
  {
    RunOne(s, BeginWrite(data));
    var s1 := Run(s, [BeginWrite(data)]);
    EveryRunKeepsInv(s, [BeginWrite(data)]);
    var copies := CopySome(s1, |data|);
    RunAppend(s, [BeginWrite(data)], copies);
    es := [BeginWrite(data)] + copies + [Publish];
    assert es[..|es| - 1] == [BeginWrite(data)] + copies;
  }

  function Zeros(n: nat): (z: seq<byte>)
    ensures |z| == n && forall k | 0 <= k < n :: z[k] == 0
  {
    seq(n, _ => 0)
  }

  /** n writes of one segment of zeros each. */
  lemma {:induction false} FillBy(s: State, n: nat) returns (es: seq<Event>)
    requires Inv(s) && s.writer.Idle?
    ensures var t := Run(s, es); t.writer.Idle? && t.stream == s.stream + Zeros(n * SEGMENT) && t.readers == s.readers
    ensures Modest(es)
  {
    if n == 0 {
      es := [];
    } else {
      var before := FillBy(s, n - 1);
      EveryRunKeepsInv(s, before);
      var last := WriteAll(Run(s, before), Zeros(SEGMENT));
      RunAppend(s, before, last);
      es := before + last;
      assert Zeros((n - 1) * SEGMENT) + Zeros(SEGMENT) == Zeros(n * SEGMENT);
    }
  }

  /** From s, consumer i has copied out exactly the first n bytes of its segment, the first of them late if its cell had been reused. */
  ghost predicate FetchedFrom(s: State, t: State, i: nat, n: nat) {
    && t == s.(readers := t.readers) && |t.readers| == |s.readers| && i < |s.readers|
    && var r, q := s.readers[i], t.readers[i];
    && r.pc.Fetching? && q.pc.Fetching? && q.pc.start == r.pc.start && q.log == r.log
    && (forall k: nat :: k in q.pc.buf <==> k < n)
    && (0 < n && Written(s, r.pc.start + RING_SIZE) ==> 0 in q.pc.late)
  }

  lemma FetchOne(s: State, t: State, i: nat, n: nat)
    requires FetchedFrom(s, t, i, n) && n < SEGMENT && |t.cells| == |t.origin| == RING_SIZE
    ensures FetchedFrom(s, Apply(t, FetchByte(i, n)), i, n + 1)
  {
    var q, q' := t.readers[i], Apply(t, FetchByte(i, n)).readers[i];
    assert q' == Fetch(t, q, n);
    assert Written(t, q.pc.start + n + RING_SIZE) == Written(s, q.pc.start + n + RING_SIZE);
  }

  lemma {:induction false} FetchSome(s: State, i: nat, n: nat) returns (es: seq<Event>)
    requires |s.cells| == |s.origin| == RING_SIZE
    requires i < |s.readers| && s.readers[i].pc.Fetching? && s.readers[i].pc.buf == map[] && n <= SEGMENT
    ensures FetchedFrom(s, Run(s, es), i, n) && forall k | 0 <= k < |es| :: es[k].FetchByte?
  {
    if n == 0 {
      es := [];
    } else {
      var before := FetchSome(s, i, n - 1);
      FetchOne(s, Run(s, before), i, n - 1);
      es := before + [FetchByte(i, n - 1)];
      RunSnoc(s, before, FetchByte(i, n - 1));
    }
  }

  /** One full ring of zeros published, and a consumer that has not looked yet. */
  ghost predicate Filled(s: State) {
    Inv(s) && s.writer.Idle? && |s.stream| == RING_SIZE && s.stream[0] == 0 && s.readers == [Started(0)]
  }

  /** The consumer has delivered a first segment, and it is not the stream's. */
  ghost predicate Torn(s: State) {
    && |s.readers| == 1 && |s.readers[0].log| == 1 && s.readers[0].log[0].start == 0
    && SEGMENT <= |s.stream| == RING_SIZE && s.readers[0].log[0].bytes != s.stream[..SEGMENT]
  }

  lemma FillTheRing() returns (es: seq<Event>)
    ensures Filled(Run(Init(1), es)) && Modest(es)
  {
    InitOk(1);
    es := FillBy(Init(1), 256);
    EveryRunKeepsInv(Init(1), es);
    assert Init(1).readers == [Started(0)];
  }

  /** The consumer has looked, and the writer has then reused the cell of its first byte. */
  ghost predicate Raced(s: State) {
    && Inv(s) && |s.stream| == RING_SIZE && s.stream[0] == 0 && s.readers == [Started(0).(pc := Fetching(0, map[], map[], {}))]
    && s.writer.Copying? && 0 in s.writer.done && 0 < |s.writer.data| <= SEGMENT
    && forall j | 0 <= j < |s.writer.data| :: s.writer.data[j] == 1
  }

  lemma Race(s: State) returns (es: seq<Event>)
    requires Filled(s)
    ensures Raced(Run(s, es)) && Modest(es)
  {
    var data: seq<byte> := seq(SEGMENT, _ => 1);
    es := [Look(0), BeginWrite(data), CopyByte(0)];
    LookThenOverwrite(s, data);
    EveryRunKeepsInv(s, es);
  }

  lemma CopyOutLate(s: State) returns (es: seq<Event>)
    requires Raced(s)
    ensures Torn(Run(s, es)) && Modest(es)
  {
    assert Written(s, RING_SIZE);
    var fetches := FetchSome(s, 0, SEGMENT);
    EveryRunKeepsInv(s, fetches);
    es := fetches + [Deliver(0)];
    assert es[..|es| - 1] == fetches;
    LateByteIsWrong(Run(s, fetches));
  }

  /**
   The code checks for lapping only before the copy, and that is not enough: here, after 256
   writes of a segment each, the consumer is exactly one ring behind when it looks, the writer
   puts one byte of its next segment down, and the segment delivered is not the stream's.
   */
  lemma TornSegment() returns (es: seq<Event>)
    ensures Torn(Run(Init(1), es)) && Modest(es)
  {
    var fill := FillTheRing();
    var race := Race(Run(Init(1), fill));
    RunAppend(Init(1), fill, race);
    var torn := CopyOutLate(Run(Init(1), fill + race));
    RunAppend(Init(1), fill + race, torn);
    es := fill + race + torn;
  }

  lemma LookThenOverwrite(s: State, data: seq<byte>)
    requires Inv(s) && s.writer.Idle? && |s.stream| == RING_SIZE && s.readers == [Started(0)]
    requires 0 < |data| <= SEGMENT
    ensures var t := Run(s, [Look(0), BeginWrite(data), CopyByte(0)]);
            t.stream == s.stream && t.writer == Copying(data, {0}) && t.readers == [Started(0).(pc := Fetching(0, map[], map[], {}))]
  {
    assert [Look(0)] + [BeginWrite(data)] == [Look(0), BeginWrite(data)];
    assert [Look(0), BeginWrite(data)] + [CopyByte(0)] == [Look(0), BeginWrite(data), CopyByte(0)];
    RunOne(s, Look(0));
    RunSnoc(s, [Look(0)], BeginWrite(data));
    RunSnoc(s, [Look(0), BeginWrite(data)], CopyByte(0));
    LookOneRingBehind(s);
    BeginOne(Apply(s, Look(0)), data);
    CopyTheByte(Apply(Apply(s, Look(0)), BeginWrite(data)), data);
  }

  lemma LookOneRingBehind(s: State)
    requires |s.stream| == s.wp == RING_SIZE && s.readers == [Started(0)]
    ensures Apply(s, Look(0)) == s.(readers := [Started(0).(pc := Fetching(0, map[], map[], {}))])
  {
    assert LookAt(s.readers[0], s.wp, |s.stream|) == Started(0).(pc := Fetching(0, map[], map[], {}));
  }

  lemma BeginOne(s: State, data: seq<byte>)
    requires s.writer.Idle? && 0 < |data| <= SEGMENT
    ensures Apply(s, BeginWrite(data)) == s.(writer := Copying(data, {}))
  {
  }

  lemma CopyTheByte(s: State, data: seq<byte>)
    requires |s.cells| == |s.origin| == RING_SIZE && s.writer == Copying(data, {}) && 0 < |data| <= SEGMENT
    ensures var t := Apply(s, CopyByte(0));
            t.stream == s.stream && t.writer == Copying(data, {0}) && t.readers == s.readers
  {
  }

  lemma LateByteIsWrong(s: State)
    requires Inv(s) && |s.readers| == 1 && Full(s.readers[0]) && s.readers[0].pc.start == 0 && s.readers[0].log == []
    requires |s.stream| == RING_SIZE && s.stream[0] == 0 && 0 in s.readers[0].pc.late
    requires s.writer.Copying? && 0 < |s.writer.data| <= SEGMENT && forall j | 0 <= j < |s.writer.data| :: s.writer.data[j] == 1
    ensures var t := Apply(s, Deliver(0));
            |t.readers| == 1 && |t.readers[0].log| == 1 && t.readers[0].log[0].start == 0 &&
            t.stream == s.stream && t.readers[0].log[0].bytes != s.stream[..SEGMENT]
  {
    var t := Apply(s, Deliver(0));
    assert ReaderInv(s, s.readers[0]);
    var pc := s.readers[0].pc;
    assert ByteOk(s, 0, 0, pc.buf[0], pc.from[0], pc.late);
    assert t.readers[0].log[0].bytes[0] == pc.buf[0] == 1;
  }
}
