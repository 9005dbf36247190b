/** Register intents and what a list of them does to a register file. */
module RegisterFile {
  import opened Words

  datatype Action = SetField | AssignFull | SettleDelay

  /** An 8-bit register address. */
  type Address = r: nat | r < 256

  /** A write of `value` to the bits `mask` of register `target`. */
  datatype Intent = Intent(action: Action, target: Address, value: byte, mask: byte)

  /** The 256 registers an 8-bit address can name. */
  type File = f: seq<byte> | |f| == 256 witness seq(256, _ => 0)

  function Full(target: Address, value: byte): Intent {
    Intent(AssignFull, target, value, 0xFF)
  }

  function Field(target: Address, value: byte, mask: byte): Intent {
    Intent(SetField, target, value, mask)
  }

  /** A read-modify-write of the bits in mask. */
  function Merge(cur: byte, value: byte, mask: byte): byte {
    (cur & !mask) | (value & mask)
  }

  /** The bits an intent writes. */
  function Reach(w: Intent): byte {
    if w.action.SettleDelay? then 0 else if w.action.AssignFull? then 0xFF else w.mask
  }

  function Put(f: File, w: Intent): File {
    if w.action.SettleDelay? then f
    else if w.mask == 0xFF || w.action.AssignFull? then f[w.target := w.value]
    else f[w.target := Merge(f[w.target], w.value, w.mask)]
  }

  function PutAll(f: File, ws: seq<Intent>): File {
    if ws == [] then f else Put(PutAll(f, ws[..|ws| - 1]), ws[|ws| - 1])
  }

  predicate Touches(w: Intent, r: Address, mask: byte) {
    w.target == r && Reach(w) & mask != 0
  }

  /** No intent of ws writes any of the bits `mask` of register r. */
  predicate Spares(ws: seq<Intent>, r: Address, mask: byte) {
    forall i | 0 <= i < |ws| :: !Touches(ws[i], r, mask)
  }

  lemma MergeSpares(cur: byte, value: byte, reach: byte, mask: byte)
    requires reach & mask == 0
    ensures Merge(cur, value, reach) & mask == cur & mask
  {
  }

  lemma MergeSets(cur: byte, value: byte, reach: byte, mask: byte)
    requires reach & mask == mask
    ensures Merge(cur, value, reach) & mask == value & mask
  {
  }

  lemma MergeExtremes(cur: byte, value: byte)
    ensures Merge(cur, value, 0xFF) == value && Merge(cur, value, 0) == cur
  {
  }

  /** Every intent is a merge of the bits it reaches, in its own register only. */
  lemma PutIsMerge(f: File, w: Intent)
    ensures Put(f, w) == f[w.target := Merge(f[w.target], w.value, Reach(w))]
  {
    MergeExtremes(f[w.target], w.value);
  }

  lemma PutAt(f: File, w: Intent, r: Address)
    ensures Put(f, w)[r] == if w.target == r then Merge(f[r], w.value, Reach(w)) else f[r]
  {
    PutIsMerge(f, w);
  }

  lemma PutSpares(f: File, w: Intent, r: Address, mask: byte)
    requires !Touches(w, r, mask)
    ensures Put(f, w)[r] & mask == f[r] & mask
  {
    PutAt(f, w, r);
    if w.target == r {
      MergeSpares(f[r], w.value, Reach(w), mask);
    }
  }

  lemma PutSets(f: File, w: Intent, r: Address, mask: byte)
    requires w.target == r && Reach(w) & mask == mask
    ensures Put(f, w)[r] & mask == w.value & mask
  {
    PutAt(f, w, r);
    MergeSets(f[r], w.value, Reach(w), mask);
  }

  /** Bits an intent does not reach stay; bits it reaches take its value. */
  lemma PutBits(f: File, w: Intent, r: Address, mask: byte)
    ensures !Touches(w, r, mask) ==> Put(f, w)[r] & mask == f[r] & mask
    ensures w.target == r && Reach(w) & mask == mask ==> Put(f, w)[r] & mask == w.value & mask
  {
    if !Touches(w, r, mask) {
      PutSpares(f, w, r, mask);
    }
    if w.target == r && Reach(w) & mask == mask {
      PutSets(f, w, r, mask);
    }
  }

  lemma {:induction false} SparedBitsStay(f: File, ws: seq<Intent>, r: Address, mask: byte)
    requires Spares(ws, r, mask)
    ensures PutAll(f, ws)[r] & mask == f[r] & mask
  {
    if ws != [] {
      SparedBitsStay(f, ws[..|ws| - 1], r, mask);
      PutSpares(PutAll(f, ws[..|ws| - 1]), ws[|ws| - 1], r, mask);
    }
  }

  lemma {:induction false} PutAllAppend(f: File, ws: seq<Intent>, vs: seq<Intent>)
    ensures PutAll(f, ws + vs) == PutAll(PutAll(f, ws), vs)
  {
    if vs == [] {
      assert ws + vs == ws;
    } else {
      PutAllAppend(f, ws, vs[..|vs| - 1]);
      assert (ws + vs)[..|ws + vs| - 1] == ws + vs[..|vs| - 1];
    }
  }

  lemma PutAllSnoc(f: File, ws: seq<Intent>, w: Intent)
    ensures PutAll(f, ws + [w]) == Put(PutAll(f, ws), w)
  {
    assert (ws + [w])[..|ws|] == ws;
  }

  lemma LastWriterBetween(f: File, before: seq<Intent>, w: Intent, rest: seq<Intent>, r: Address, mask: byte)
    requires w.target == r && Reach(w) & mask == mask && Spares(rest, r, mask)
    ensures PutAll(f, before + [w] + rest)[r] & mask == w.value & mask
  {
    PutAllAppend(f, before + [w], rest);
    PutAllSnoc(f, before, w);
    PutSets(PutAll(f, before), w, r, mask);
    SparedBitsStay(PutAll(f, before + [w]), rest, r, mask);
  }

  /** Bits written by the i-th intent and spared by all later ones keep what it wrote. */
  lemma LastWriterWins(f: File, ws: seq<Intent>, i: nat, r: Address, mask: byte)
    requires i < |ws| && ws[i].target == r && Reach(ws[i]) & mask == mask && Spares(ws[i + 1..], r, mask)
    ensures PutAll(f, ws)[r] & mask == ws[i].value & mask
  {
    assert ws == ws[..i] + [ws[i]] + ws[i + 1..];
    LastWriterBetween(f, ws[..i], ws[i], ws[i + 1..], r, mask);
  }

  lemma SparesAppend(ws: seq<Intent>, vs: seq<Intent>, r: Address, mask: byte)
    ensures Spares(ws + vs, r, mask) <==> Spares(ws, r, mask) && Spares(vs, r, mask)
  {
    if Spares(ws + vs, r, mask) {
      forall i | 0 <= i < |ws|
        ensures !Touches(ws[i], r, mask)
      {
        assert (ws + vs)[i] == ws[i];
      }
      forall i | 0 <= i < |vs|
        ensures !Touches(vs[i], r, mask)
      {
        assert (ws + vs)[|ws| + i] == vs[i];
      }
    }
  }

  const SEQ_CAPACITY: nat := 32

  /** The fixed-capacity list a tuning step is composed in. */
  class IntentSeq {
    const entries: array<Intent>
    var length: nat

    ghost predicate Valid()
      reads this
    {
      entries.Length == SEQ_CAPACITY && length <= SEQ_CAPACITY
    }

    ghost function Contents(): seq<Intent>
      reads this, entries
      requires Valid()
    {
      entries[..length]
    }

    constructor ()
      ensures Valid() && fresh(entries) && Contents() == []
    {
      entries := new Intent[SEQ_CAPACITY](_ => Full(0, 0));
      length := 0;
    }

    method Clear()
      requires Valid()
      modifies this
      ensures Valid() && Contents() == []
    {
      length := 0;
    }

    /** A push onto a full list is refused and changes nothing. */
    method Push(w: Intent) returns (ok: bool)
      requires Valid()
      modifies this, entries
      ensures Valid() && ok == (|old(Contents())| < SEQ_CAPACITY)
      ensures Contents() == if ok then old(Contents()) + [w] else old(Contents())
    {
      if length >= SEQ_CAPACITY {
        return false;
      }
      entries[length] := w;
      length := length + 1;
      ok := true;
    }

    /** A composer: clear, then push each intent in turn. */
    method Compose(ws: seq<Intent>)
      requires Valid() && |ws| <= SEQ_CAPACITY
      modifies this, entries
      ensures Valid() && Contents() == ws
    {
      Clear();
      for i := 0 to |ws|
        invariant Valid() && Contents() == ws[..i]
      {
        var _ := Push(ws[i]);
      }
    }
  }
}
