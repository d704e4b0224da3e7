/** Byte strings cut into chunks of one size, and numbered slots that collect them again in any order. */
module Slots {
  import opened Common

  function Min(x: nat, y: nat): nat {
    if x <= y then x else y
  }

  /** Chunk `i` of `bytes`; the last one may be shorter. */
  function Chunk(bytes: Bytes, size: nat, i: nat): Bytes {
    MulMonotone(i, i + 1, size);
    bytes[Min(i * size, |bytes|)..Min((i + 1) * size, |bytes|)]
  }

  /** All chunks of `bytes`, in order. */
  function Chunks(bytes: Bytes, size: nat): (parts: seq<Bytes>)
    requires 0 < size
    ensures |parts| == DivCeil(|bytes|, size)
  {
    seq(DivCeil(|bytes|, size), i requires 0 <= i < DivCeil(|bytes|, size) => Chunk(bytes, size, i))
  }

  function Concat(parts: seq<Bytes>): Bytes {
    if parts == [] then [] else parts[0] + Concat(parts[1..])
  }

  lemma CeilBounds(n: nat, size: nat)
    requires 0 < size
    ensures n <= DivCeil(n, size) * size
    ensures n > 0 ==> DivCeil(n, size) > 0 && (DivCeil(n, size) - 1) * size < n
  {
    var q, r := n / size, n % size;
    assert n == q * size + r;
    assert (q + 1) * size == q * size + size;
    assert (q - 1) * size == q * size - size;
  }

  lemma ChunkBounds(bytes: Bytes, size: nat, i: nat)
    requires 0 < size && i < DivCeil(|bytes|, size)
    ensures 0 < |Chunk(bytes, size, i)| <= size
    ensures Min(i * size, |bytes|) == i * size
    ensures (i + 1) * size == i * size + size
  {
    CeilBounds(|bytes|, size);
    MulMonotone(i, DivCeil(|bytes|, size) - 1, size);
  }

  /** The chunks from `k` on are the bytes from the start of chunk `k` on. */
  lemma {:induction false} ChunksFrom(bytes: Bytes, size: nat, k: nat)
    requires 0 < size && k <= DivCeil(|bytes|, size)
    ensures 0 <= k * size
    ensures Concat(Chunks(bytes, size)[k..]) == bytes[Min(k * size, |bytes|)..]
    decreases DivCeil(|bytes|, size) - k
  {
    MulMonotone(0, k, size);
    var parts := Chunks(bytes, size);
    if k == |parts| {
      CeilBounds(|bytes|, size);
    } else {
      ChunkBounds(bytes, size, k);
      ChunksFrom(bytes, size, k + 1);
      assert parts[k..][1..] == parts[k + 1..];
      CutAt(bytes, k * size, Min((k + 1) * size, |bytes|));
    }
  }

  lemma CutAt(bytes: Bytes, lo: nat, hi: nat)
    requires lo <= hi <= |bytes|
    ensures bytes[lo..] == bytes[lo..hi] + bytes[hi..]
  {
  }

  /** Cutting loses nothing. */
  lemma ChunksRebuild(bytes: Bytes, size: nat)
    requires 0 < size
    ensures Concat(Chunks(bytes, size)) == bytes
  {
    ChunksFrom(bytes, size, 0);
    assert Chunks(bytes, size)[0..] == Chunks(bytes, size);
    assert bytes[0..] == bytes;
  }

  // ----- Slots -----

  type Slot = Option<Bytes>

  function FilledBytes(slots: seq<Slot>): nat {
    if slots == [] then 0
    else (if slots[0].Some? then |slots[0].value| else 0) + FilledBytes(slots[1..])
  }

  /** The filled slots in index order. */
  function Flatten(slots: seq<Slot>): (message: Bytes)
    ensures |message| == FilledBytes(slots)
  {
    if slots == [] then []
    else (if slots[0].Some? then slots[0].value else []) + Flatten(slots[1..])
  }

  predicate Complete(slots: seq<Slot>) {
    forall i | 0 <= i < |slots| :: slots[i].Some?
  }

  function Values(slots: seq<Slot>): (parts: seq<Bytes>)
    requires Complete(slots)
    ensures |parts| == |slots|
  {
    seq(|slots|, i requires 0 <= i < |slots| => slots[i].value)
  }

  lemma {:induction false} FlattenIsConcat(slots: seq<Slot>)
    requires Complete(slots)
    ensures Flatten(slots) == Concat(Values(slots))
  {
    if slots != [] {
      FlattenIsConcat(slots[1..]);
      assert Values(slots)[1..] == Values(slots[1..]);
    }
  }

  lemma {:induction false} EmptySlots(slots: seq<Slot>)
    requires forall i | 0 <= i < |slots| :: slots[i].None?
    ensures FilledBytes(slots) == 0
  {
    if slots != [] { EmptySlots(slots[1..]); }
  }

  lemma {:induction false} FillOneSlot(slots: seq<Slot>, i: nat, bytes: Bytes)
    requires i < |slots| && slots[i].None?
    ensures FilledBytes(slots[i := Some(bytes)]) == FilledBytes(slots) + |bytes|
    decreases i
  {
    var next := slots[i := Some(bytes)];
    if i == 0 {
      assert next[1..] == slots[1..];
    } else {
      FillOneSlot(slots[1..], i - 1, bytes);
      assert next[1..] == slots[1..][i - 1 := Some(bytes)];
    }
  }

  /** Slots of bounded size hold boundedly many bytes. */
  lemma {:induction false} FilledBound(slots: seq<Slot>, size: nat)
    requires forall i | 0 <= i < |slots| :: slots[i].Some? ==> |slots[i].value| <= size
    ensures 0 <= FilledBytes(slots) <= |slots| * size
  {
    if slots != [] {
      FilledBound(slots[1..], size);
      assert |slots| * size == (|slots| - 1) * size + size;
    }
  }

  /** Joins complete slots, as the source's collecting loops do. */
  method Join(slots: seq<Slot>) returns (message: Bytes)
    requires Complete(slots)
    ensures message == Flatten(slots) == Concat(Values(slots))
  {
    FlattenIsConcat(slots);
    message := [];
    for i := 0 to |slots|
      invariant message + Flatten(slots[i..]) == Flatten(slots)
    {
      assert slots[i..][1..] == slots[i + 1..];
      message := message + slots[i].value;
    }
  }
}
