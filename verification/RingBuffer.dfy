/**
 The ring as the code keeps it: a 4 MB array, 32-bit positions that wrap, copies split at
 the end of the array, and eight subscriber slots. Each call is proved to be the matching
 step of `RingSpec` on unbounded positions.
 */
module RingBuffer {
  import opened Words
  import opened RingSpec

  /** What ring_init fills the array with. */
  const SILENCE: byte := 128

  /** The byte that belongs in cell c: the last one the stream put there, if any. */
  function CellAt(stream: seq<byte>, c: nat): byte
    requires c < RING_SIZE
  {
    var p := |stream| + (c - |stream|) % RING_SIZE - RING_SIZE;
    if p < 0 then SILENCE else stream[p]
  }

  /** The array contents a stream leaves behind. */
  ghost predicate Holds(cells: seq<byte>, stream: seq<byte>) {
    |cells| == RING_SIZE && forall c | 0 <= c < RING_SIZE :: cells[c] == CellAt(stream, c)
  }

  lemma CellOfRecentByte(stream: seq<byte>, p: nat)
    requires p < |stream| <= p + RING_SIZE
    ensures CellAt(stream, p % RING_SIZE) == stream[p]
  {
  }

  lemma CellAfterWrite(stream: seq<byte>, data: seq<byte>, c: nat)
    requires |data| <= RING_SIZE && c < RING_SIZE
    ensures var j := (c - |stream|) % RING_SIZE;
            CellAt(stream + data, c) == if j < |data| then data[j] else CellAt(stream, c)
  {
  }

  lemma Congruent(x: int, y: int, k: int)
    requires x == y + RING_SIZE * k
    ensures x % RING_SIZE == y % RING_SIZE
  {
  }

  /** The ring size divides 2^32, so a wrapped position is in the same cell. */
  lemma WrappedCell(w: nat)
    ensures U32(w) % RING_SIZE == w % RING_SIZE
  {
    Congruent(w, U32(w), 1024 * (w / 0x1_0000_0000));
  }

  lemma OffsetFromCell(c: int, w: nat)
    ensures (c - w % RING_SIZE) % RING_SIZE == (c - w) % RING_SIZE
  {
    Congruent(c - w % RING_SIZE, c - w, w / RING_SIZE);
  }

  lemma CellAtOffset(c: int, w: nat)
    ensures (w % RING_SIZE + c) % RING_SIZE == (w + c) % RING_SIZE
  {
    Congruent(w + c, w % RING_SIZE + c, w / RING_SIZE);
  }

  /** `after` is `before` with `data` laid down from `at` on, continuing at the start of the array. */
  ghost predicate Spliced(before: seq<byte>, at: nat, data: seq<byte>, after: seq<byte>) {
    && |before| == |after| == RING_SIZE
    && forall c | 0 <= c < RING_SIZE ::
         after[c] == var j := (c - at) % RING_SIZE; if j < |data| then data[j] else before[c]
  }

  /** `buf` holds the segment of `cells` that starts at `start`, continuing at the start of the array. */
  ghost predicate Extracted(cells: seq<byte>, start: nat, buf: seq<byte>) {
    |cells| == RING_SIZE && |buf| == SEGMENT && forall k | 0 <= k < SEGMENT :: buf[k] == cells[(start + k) % RING_SIZE]
  }

  lemma HoldsAfterWrite(before: seq<byte>, stream: seq<byte>, data: seq<byte>, wp: nat, after: seq<byte>)
    requires Holds(before, stream) && |data| <= RING_SIZE && wp == U32(|stream|)
    requires Spliced(before, wp % RING_SIZE, data, after)
    ensures Holds(after, stream + data)
  {
    forall c | 0 <= c < RING_SIZE
      ensures after[c] == CellAt(stream + data, c)
    {
      WrappedCell(|stream|);
      OffsetFromCell(c, |stream|);
      CellAfterWrite(stream, data, c);
    }
  }

  lemma WindowFromCells(cells: seq<byte>, stream: seq<byte>, rp: nat, window: nat, buf: seq<byte>)
    requires Holds(cells, stream) && window + SEGMENT <= |stream| <= window + RING_SIZE && rp == U32(window)
    requires Extracted(cells, rp % RING_SIZE, buf)
    ensures buf == stream[window..window + SEGMENT]
  {
    forall k | 0 <= k < SEGMENT
      ensures buf[k] == stream[window + k]
    {
      WrappedCell(window);
      CellAtOffset(k, window);
      CellOfRecentByte(stream, window + k);
    }
  }

  /** What a consumer computes from wrapped positions is what `NextWindow` computes from true ones. */
  lemma WindowInWords(written: nat, pos: nat)
    requires pos <= written
    ensures var avail := U32(U32(written) - U32(pos));
            && avail == U32(written - pos)
            && (avail >= SEGMENT ==>
                  U32(NextWindow(written, pos).value) == if avail > RING_SIZE then U32(U32(written) - SEGMENT) else U32(pos))
  {
    U32Left(written, 0 - U32(pos));
    U32Right(written, pos);
    U32Left(written, 0 - SEGMENT);
    U32Right(written, written - pos);
  }

  /** One iq_subscriber; `running` says whether its consumer thread is alive. */
  datatype Subscriber = Subscriber(active: bool, started: bool, cancel: bool, running: bool, readPos: nat, sequence: nat)

  const FREE_SLOT := Subscriber(false, false, false, false, 0, 0)

  method Memcpy(dst: array<byte>, at: nat, src: array<byte>, from: nat, n: nat)
    requires dst != src && at + n <= dst.Length && from + n <= src.Length
    modifies dst
    ensures forall c | 0 <= c < dst.Length ::
              dst[c] == if at <= c < at + n then src[from + (c - at)] else old(dst[c])
  {
    for k := 0 to n
      invariant forall c | 0 <= c < dst.Length ::
                  dst[c] == if at <= c < at + k then src[from + (c - at)] else old(dst[c])
    {
      dst[at + k] := src[from + k];
    }
  }

  /** The writer's copy: up to the end of the array, the rest from its start. */
  method CopyIn(data: array<byte>, at: nat, src: array<byte>, len: nat)
    requires data.Length == RING_SIZE && at < RING_SIZE && len <= src.Length && len <= RING_SIZE && src != data
    modifies data
    ensures Spliced(old(data[..]), at, src[..len], data[..])
  {
    var first := RING_SIZE - at;
    if first >= len {
      Memcpy(data, at, src, 0, len);
    } else {
      Memcpy(data, at, src, 0, first);
      Memcpy(data, 0, src, first, len - first);
    }
  }

  /** A consumer's copy of one segment, split in the same way. */
  method CopyOut(data: array<byte>, start: nat, buf: array<byte>)
    requires data.Length == RING_SIZE && start < RING_SIZE && buf.Length == SEGMENT && buf != data
    modifies buf
    ensures Extracted(data[..], start, buf[..])
  {
    var first := RING_SIZE - start;
    if first >= SEGMENT {
      Memcpy(buf, 0, data, start, SEGMENT);
    } else {
      Memcpy(buf, 0, data, start, first);
      Memcpy(buf, first, data, 0, SEGMENT - first);
    }
  }

  ghost predicate SlotOk(sub: Subscriber, i: nat, model: Ring) {
    && (sub.active <==> i in model.readers)
    && (sub.active <==> sub.started)
    && (sub.running ==> sub.active)
    && (sub.active ==> sub.readPos == U32(model.readers[i].pos) && sub.sequence == U32(|model.readers[i].log|))
  }

  lemma PollInWords(r: Reader, stream: seq<byte>)
    requires r.pos <= |stream| && NextWindow(|stream|, r.pos).Some?
    ensures U32(PollReader(r, stream).pos) == U32(U32(NextWindow(|stream|, r.pos).value) + SEGMENT)
    ensures U32(|PollReader(r, stream).log|) == U32(U32(|r.log|) + 1)
  {
    U32Left(NextWindow(|stream|, r.pos).value, SEGMENT);
    U32Left(|r.log|, 1);
  }

  ghost predicate SlotsOk(subs: seq<Subscriber>, model: Ring) {
    && |subs| == MAX_SUBSCRIBERS
    && (forall i | 0 <= i < MAX_SUBSCRIBERS :: SlotOk(subs[i], i, model))
    && (forall i | i in model.readers :: i < MAX_SUBSCRIBERS)
  }

  /** A subscriber once the segment read from `from` has been handed over. */
  function Moved(sub: Subscriber, from: nat): Subscriber {
    sub.(sequence := U32(sub.sequence + 1), readPos := U32(from + SEGMENT))
  }

  lemma PollKeepsSlots(before: seq<Subscriber>, model: Ring, i: nat, from: nat)
    requires RingOk(model) && SlotsOk(before, model) && i in model.readers && ReaderOk(model.readers[i], model.stream)
    requires var window := NextWindow(|model.stream|, model.readers[i].pos);
             window.Some? && from == U32(window.value)
    ensures i < |before| && SlotsOk(before[i := Moved(before[i], from)], Step(model, RingSpec.Poll(i)))
  {
    assert i < MAX_SUBSCRIBERS && SlotOk(before[i], i, model);
    var after := before[i := Moved(before[i], from)];
    PollInWords(model.readers[i], model.stream);
    forall j | 0 <= j < MAX_SUBSCRIBERS
      ensures SlotOk(after[j], j, Step(model, RingSpec.Poll(i)))
    {
      assert SlotOk(before[j], j, model);
    }
  }

  lemma JoinKeepsSlots(before: seq<Subscriber>, model: Ring, i: nat)
    requires RingOk(model) && SlotsOk(before, model) && i < MAX_SUBSCRIBERS && i !in model.readers
    ensures SlotsOk(before[i := Subscriber(true, true, false, true, U32(|model.stream|), 0)], Step(model, Join(i)))
  {
    var after := before[i := Subscriber(true, true, false, true, U32(|model.stream|), 0)];
    forall j | 0 <= j < MAX_SUBSCRIBERS
      ensures SlotOk(after[j], j, Step(model, Join(i)))
    {
      assert SlotOk(before[j], j, model);
    }
  }

  lemma FreeSlotStays(before: seq<Subscriber>, model: Ring, i: nat, sub: Subscriber)
    requires SlotsOk(before, model) && i < MAX_SUBSCRIBERS && i !in model.readers
    requires !sub.active && !sub.running && sub.started == before[i].started
    ensures SlotsOk(before[i := sub], model)
  {
    var after := before[i := sub];
    assert SlotOk(before[i], i, model);
    forall j | 0 <= j < MAX_SUBSCRIBERS
      ensures SlotOk(after[j], j, model)
    {
      assert SlotOk(before[j], j, model);
    }
  }

  /** Reader i's log has grown by one delivery of these bytes under this number. */
  ghost predicate Appended(before: Ring, after: Ring, i: nat, bytes: seq<byte>, sequence: nat) {
    && i in before.readers && i in after.readers
    && exists start :: after.readers[i].log == before.readers[i].log + [Delivery(start, bytes, sequence)]
  }

  lemma PollAppends(model: Ring, i: nat, bytes: seq<byte>)
    requires RingOk(model) && i in model.readers && ReaderOk(model.readers[i], model.stream)
    requires var window := NextWindow(|model.stream|, model.readers[i].pos);
             window.Some? && bytes == model.stream[window.value..window.value + SEGMENT]
    ensures Appended(model, Step(model, RingSpec.Poll(i)), i, bytes, U32(|model.readers[i].log|))
  {
    var start := NextWindow(|model.stream|, model.readers[i].pos).value;
    assert Step(model, RingSpec.Poll(i)).readers[i].log
        == model.readers[i].log + [Delivery(start, bytes, U32(|model.readers[i].log|))];
  }

  class IqRing {
    const data: array<byte>
    var writePos: nat
    var subs: seq<Subscriber>
    var streaming: bool
    ghost var model: Ring

    ghost predicate Valid()
      reads this, data
    {
      && data.Length == RING_SIZE && Holds(data[..], model.stream)
      && writePos == U32(|model.stream|)
      && SlotsOk(subs, model)
      && RingOk(model)
    }

    constructor ()
      ensures Valid() && fresh(data)
      ensures model == Ring([], map[]) && streaming
    {
      data := new byte[RING_SIZE](_ => SILENCE);
      writePos := 0;
      subs := seq(MAX_SUBSCRIBERS, _ => FREE_SLOT);
      streaming := true;
      model := Ring([], map[]);
    }

    /** ring_write: the bytes join the stream, in at most two copies. */
    method Write(src: array<byte>, len: nat)
      requires Valid() && len <= src.Length && len <= RING_SIZE && src != data
      modifies this`writePos, this`model, data
      ensures Valid()
      ensures model == Step(old(model), RingSpec.Write(old(src[..len])))
    {
      var wp := writePos;
      CopyIn(data, wp % RING_SIZE, src, len);
      writePos := U32(wp + len);
      ghost var bytes := src[..len];
      HoldsAfterWrite(old(data[..]), model.stream, bytes, wp, data[..]);
      U32Left(|model.stream|, len);
      StepKeepsRing(model, RingSpec.Write(bytes));
      model := Step(model, RingSpec.Write(bytes));
    }

    /** The part of a consumer's turn that looks at the ring: catch up when lapped, copy one segment out. */
    method Fetch(readPos: nat, buf: array<byte>, ghost pos: nat) returns (from: Option<nat>)
      requires Valid() && buf != data && buf.Length == SEGMENT && pos <= |model.stream| && readPos == U32(pos)
      modifies buf
      ensures var window := NextWindow(|model.stream|, pos);
              && (from.None? <==> window.None?)
              && (window.Some? ==> from.value == U32(window.value) && buf[..] == model.stream[window.value..window.value + SEGMENT])
    {
      var wp, rp := writePos, readPos;
      var avail := U32(wp - rp);
      WindowInWords(|model.stream|, pos);
      if avail < SEGMENT {
        return None;
      }
      if avail > RING_SIZE {
        rp := U32(wp - SEGMENT);
      }
      CopyOut(data, rp % RING_SIZE, buf);
      WindowFromCells(data[..], model.stream, rp, NextWindow(|model.stream|, pos).value, buf[..]);
      from := Some(rp);
    }

    /** The rest of a turn: hand the segment over under the current sequence number, then move on past it. */
    method Deliver(i: nat, from: nat, ghost bytes: seq<byte>) returns (sequence: nat)
      requires Valid() && i < MAX_SUBSCRIBERS && i in model.readers && model.readers[i].pos <= |model.stream|
      requires var window := NextWindow(|model.stream|, model.readers[i].pos);
               window.Some? && from == U32(window.value) && bytes == model.stream[window.value..window.value + SEGMENT]
      modifies this`subs, this`model
      ensures Valid()
      ensures model == Step(old(model), RingSpec.Poll(i)) && Appended(old(model), model, i, bytes, sequence)
      ensures subs == old(subs)[i := Moved(old(subs[i]), from)]
    {
      assert SlotOk(subs[i], i, model) && ReaderOk(model.readers[i], model.stream);
      PollAppends(model, i, bytes);
      StepKeepsRing(model, RingSpec.Poll(i));
      PollKeepsSlots(subs, model, i, from);
      sequence := subs[i].sequence;
      subs := subs[i := Moved(subs[i], from)];
      model := Step(model, RingSpec.Poll(i));
    }

    /** One turn of a consumer thread's loop: nothing yet, or one segment in `buf` with its sequence number. */
    method Poll(i: nat, buf: array<byte>) returns (delivered: Option<nat>)
      requires Valid() && i < MAX_SUBSCRIBERS && subs[i].running && buf != data && buf.Length == SEGMENT
      modifies this`subs, this`model, buf
      ensures Valid()
      ensures model == Step(old(model), RingSpec.Poll(i))
      ensures delivered.None? ==> model == old(model)
      ensures delivered.Some? ==> Appended(old(model), model, i, buf[..], delivered.value)
      ensures subs == old(subs) || exists from :: subs == old(subs)[i := Moved(old(subs[i]), from)]
    {
      ghost var r := model.readers[i];
      assert SlotOk(subs[i], i, model) && ReaderOk(r, model.stream);
      var rp := Fetch(subs[i].readPos, buf, r.pos);
      if rp.None? {
        return None;
      }
      var sequence := Deliver(i, rp.value, buf[..]);
      delivered := Some(sequence);
    }

    /** A new subscriber gets the lowest free slot and starts at the writer's position. */
    method Subscribe() returns (rc: Status, handle: nat)
      requires Valid()
      modifies this`subs, this`model
      ensures Valid()
      ensures rc == Ok ==>
                && handle < MAX_SUBSCRIBERS && handle !in old(model.readers)
                && (forall i | 0 <= i < handle :: i in old(model.readers))
                && model == Step(old(model), Join(handle))
                && subs == old(subs)[handle := Subscriber(true, true, false, true, writePos, 0)]
      ensures rc == Busy ==> streaming && forall i | 0 <= i < MAX_SUBSCRIBERS :: i in old(model.readers)
      ensures rc == ParamError <==> !streaming
      ensures rc in {Ok, Busy, IoError, ParamError}
      ensures rc == IoError ==> exists i :: 0 <= i < MAX_SUBSCRIBERS && i !in old(model.readers)
      ensures rc != Ok ==>
                && model == old(model)
                && (forall i | 0 <= i < MAX_SUBSCRIBERS :: subs[i].active == old(subs[i].active))
                && (forall i | 0 <= i < MAX_SUBSCRIBERS && old(subs[i].active) :: subs[i] == old(subs[i]))
    {
      handle := 0;
      if !streaming {
        return ParamError, handle;
      }
      while handle < MAX_SUBSCRIBERS && subs[handle].active
        invariant handle <= MAX_SUBSCRIBERS
        invariant forall i | 0 <= i < handle :: i in model.readers
      {
        assert SlotOk(subs[handle], handle, model);
        handle := handle + 1;
      }
      if handle == MAX_SUBSCRIBERS {
        return Busy, handle;
      }
      assert SlotOk(subs[handle], handle, model);
      var spawned := StartConsumer(handle);
      rc := if spawned then Ok else IoError;
    }

    /** Fill in a free slot and start its thread, or free it again if that fails. */
    method StartConsumer(handle: nat) returns (spawned: bool)
      requires Valid() && handle < MAX_SUBSCRIBERS && handle !in model.readers && !subs[handle].active
      modifies this`subs, this`model
      ensures Valid()
      ensures spawned ==>
                model == Step(old(model), Join(handle)) && subs == old(subs)[handle := Subscriber(true, true, false, true, writePos, 0)]
      ensures !spawned ==>
                model == old(model) && !subs[handle].active && subs == old(subs)[handle := subs[handle]]
    {
      subs := subs[handle := Subscriber(true, subs[handle].started, false, false, writePos, 0)];
      spawned := *;
      if !spawned {
        subs := subs[handle := subs[handle].(active := false)];
        FreeSlotStays(old(subs), model, handle, subs[handle]);
        return;
      }
      subs := subs[handle := subs[handle].(started := true, running := true)];
      assert subs == old(subs)[handle := Subscriber(true, true, false, true, writePos, 0)];
      JoinKeepsSlots(old(subs), model, handle);
      StepKeepsRing(model, Join(handle));
      model := Step(model, Join(handle));
    }

    /** Ask the consumer to stop, wait for it, give the slot back. */
    method Unsubscribe(handle: int) returns (rc: Status)
      requires Valid()
      modifies this`subs, this`model
      ensures Valid()
      ensures rc == (if 0 <= handle < MAX_SUBSCRIBERS && handle in old(model.readers) then Ok else ParamError)
      ensures rc == Ok ==> model == Step(old(model), Leave(handle)) && !subs[handle].active && !subs[handle].running
      ensures rc != Ok ==> model == old(model) && subs == old(subs)
      ensures forall i | 0 <= i < MAX_SUBSCRIBERS && i != handle :: subs[i] == old(subs[i])
    {
      if handle < 0 || handle >= MAX_SUBSCRIBERS {
        return ParamError;
      }
      assert SlotOk(subs[handle], handle, model);
      if !subs[handle].active {
        return ParamError;
      }
      subs := subs[handle := subs[handle].(cancel := true)];
      if subs[handle].started {
        subs := subs[handle := subs[handle].(running := false)];  // pthread_join returns once the thread has left its loop
        subs := subs[handle := subs[handle].(started := false)];
      }
      subs := subs[handle := subs[handle].(active := false)];
      StepKeepsRing(model, Leave(handle));
      model := Step(model, Leave(handle));
      rc := Ok;
    }

    /** ring_engine::stop: no subscriber and no consumer thread is left, and nothing was lost from the stream. */
    method Stop()
      requires Valid()
      modifies this`subs, this`model, this`streaming
      ensures Valid()
      ensures !streaming && model.stream == old(model.stream)
      ensures old(streaming) ==> model.readers == map[] && forall i | 0 <= i < MAX_SUBSCRIBERS :: !subs[i].active && !subs[i].running
      ensures !old(streaming) ==> model == old(model) && subs == old(subs)
    {
      if !streaming {
        return;
      }
      for i := 0 to MAX_SUBSCRIBERS
        invariant Valid() && streaming && model.stream == old(model.stream)
        invariant forall j | 0 <= j < i :: !subs[j].active && !subs[j].running
      {
        if subs[i].active {
          assert SlotOk(subs[i], i, model);
          var _ := Unsubscribe(i);
        }
      }
      streaming := false;
      assert forall i | i in model.readers :: SlotOk(subs[i], i, model);
    }
  }
}
