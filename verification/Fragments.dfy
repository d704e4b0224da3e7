/**
 * Messages larger than one cell: splitting into numbered fragments and bounded reassembly of up to
 * sixteen interleaved messages.
 */
module Fragments {
  import opened Common
  import opened OnionSetup
  import BE = BigEndian
  import Cells = OnionCells
  import opened Slots

  const MAX_FRAGMENT_COUNT: nat := 1024
  const MAX_MESSAGE_SIZE: nat := 512 * 1024
  const MAX_INFLIGHT_MESSAGES: nat := 16
  const FRAGMENT_HEADER_SIZE: nat := 28
  const MAX_BYTES: nat := Cells.MAX_LAYER_DATA - FRAGMENT_HEADER_SIZE

  datatype Fragment = Fragment(messageId: Id16, index: u32, count: u32, totalLen: u32, bytes: Bytes)

  predicate Valid(f: Fragment) {
    && 0 < f.count <= MAX_FRAGMENT_COUNT
    && f.index < f.count
    && f.totalLen <= MAX_MESSAGE_SIZE
    && |f.bytes| <= MAX_BYTES
    && (f.totalLen == 0 ==> f.count == 1 && f.bytes == [])
    && (f.totalLen > 0 ==> f.bytes != [])
  }

  // ----- Wire form -----

  function Encode(f: Fragment): Result<Bytes, OnionError> {
    if !Valid(f) then Err(InvalidEncoding)
    else Ok(f.messageId + BE.U32(f.index) + BE.U32(f.count) + BE.U32(f.totalLen) + f.bytes)
  }

  function Decode(s: Bytes): Result<Fragment, OnionError> {
    if |s| < FRAGMENT_HEADER_SIZE || |s| > Cells.MAX_LAYER_DATA then Err(InvalidEncoding)
    else
      var f := Fragment(s[..16], BE.ReadU32(s[16..20]), BE.ReadU32(s[20..24]), BE.ReadU32(s[24..28]), s[28..]);
      if Valid(f) then Ok(f) else Err(InvalidEncoding)
  }

  lemma FragmentSlices(id: Bytes, index: Bytes, count: Bytes, total: Bytes, body: Bytes)
    requires |id| == 16 && |index| == |count| == |total| == 4
    ensures var s := id + index + count + total + body;
            s[..16] == id && s[16..20] == index && s[20..24] == count && s[24..28] == total && s[28..] == body
  {
  }

  lemma DecodeUndoesEncode(f: Fragment)
    ensures Encode(f).Ok? <==> Valid(f)
    ensures Encode(f).Ok? ==> |Encode(f).value| <= Cells.MAX_LAYER_DATA && Decode(Encode(f).value) == Ok(f)
  {
    if Valid(f) {
      FragmentSlices(f.messageId, BE.U32(f.index), BE.U32(f.count), BE.U32(f.totalLen), f.bytes);
      BE.U32RoundTrip(f.index);
      BE.U32RoundTrip(f.count);
      BE.U32RoundTrip(f.totalLen);
    }
  }

  lemma EncodeUndoesDecode(s: Bytes)
    requires Decode(s).Ok?
    ensures Encode(Decode(s).value) == Ok(s)
  {
    BE.U32Exact(s[16..20]);
    BE.U32Exact(s[20..24]);
    BE.U32Exact(s[24..28]);
    assert s == s[..16] + s[16..20] + s[20..24] + s[24..28] + s[28..];
  }

  /**
   * A byte string is a fragment exactly when it is between 28 and 955 bytes long, names one of at most
   * 1,024 pieces of a message of at most 512 KiB, and carries bytes unless it is all of an empty message.
   */
  lemma DecodesExactly(s: Bytes)
    ensures Decode(s).Ok? <==>
            && 28 <= |s| <= 955
            && var index, count, total := BE.ReadU32(s[16..20]), BE.ReadU32(s[20..24]), BE.ReadU32(s[24..28]);
            && index < count <= 1024 && total <= 512 * 1024
            && if total == 0 then count == 1 && |s| == 28 else |s| > 28
    ensures Decode(s).Ok? ==> Decode(s).value.messageId == s[..16] && Decode(s).value.bytes == s[28..]
  {
  }

  // ----- Splitting -----

  function FragmentAt(id: Id16, message: Bytes, count: u32, i: nat): Fragment
    requires |message| <= MAX_MESSAGE_SIZE && i < count
  {
    Fragment(id, i, count, |message|, Chunk(message, MAX_BYTES, i))
  }

  function FragmentMessage(id: Id16, message: Bytes): Result<seq<Fragment>, OnionError> {
    if |message| > MAX_MESSAGE_SIZE then Err(PayloadTooLarge)
    else if message == [] then Ok([Fragment(id, 0, 1, 0, [])])
    else
      var count := DivCeil(|message|, MAX_BYTES);
      if count > MAX_FRAGMENT_COUNT then Err(PayloadTooLarge)
      else Ok(seq(count, i requires 0 <= i < count => FragmentAt(id, message, count, i)))
  }

  function Bodies(fragments: seq<Fragment>): (parts: seq<Bytes>)
    ensures |parts| == |fragments|
  {
    seq(|fragments|, i requires 0 <= i < |fragments| => fragments[i].bytes)
  }

  /** Splitting fails for oversized messages only, needs at most 566 fragments, and loses nothing. */
  lemma FragmentsRebuildMessage(id: Id16, message: Bytes)
    ensures FragmentMessage(id, message).Ok? <==> |message| <= MAX_MESSAGE_SIZE
    ensures FragmentMessage(id, message).Ok? ==>
              var fragments := FragmentMessage(id, message).value;
              && 1 <= |fragments| <= 566
              && Concat(Bodies(fragments)) == message
              && forall i | 0 <= i < |fragments| ::
                   && Valid(fragments[i])
                   && fragments[i].messageId == id && fragments[i].index == i
                   && fragments[i].count == |fragments| && fragments[i].totalLen == |message|
  {
    if 0 < |message| <= MAX_MESSAGE_SIZE {
      CountBound(|message|);
      var fragments := FragmentMessage(id, message).value;
      forall i | 0 <= i < |fragments|
        ensures Valid(fragments[i])
      {
        ChunkIsValid(id, message, i);
      }
      ChunksRebuild(message, MAX_BYTES);
      assert Bodies(fragments) == Chunks(message, MAX_BYTES);
    } else if message == [] {
      assert Bodies(FragmentMessage(id, message).value) == [[]];
    }
  }

  lemma CountBound(length: nat)
    requires 0 < length <= MAX_MESSAGE_SIZE
    ensures 1 <= DivCeil(length, MAX_BYTES) <= 566
  {
  }

  lemma ChunkIsValid(id: Id16, message: Bytes, i: nat)
    requires 0 < |message| <= MAX_MESSAGE_SIZE && i < DivCeil(|message|, MAX_BYTES) <= 566
    ensures Valid(FragmentAt(id, message, DivCeil(|message|, MAX_BYTES), i))
  {
    ChunkBounds(message, MAX_BYTES, i);
  }

  // ----- Reassembly -----

  datatype Partial = Partial(count: u32, totalLen: u32, received: nat, slots: seq<Slot>)

  type Table = map<Id16, Partial>

  /** The byte counter of an entry is the sum of its filled slots and stays within its declared total. */
  predicate EntryOk(e: Partial) {
    && 0 < e.count <= MAX_FRAGMENT_COUNT && |e.slots| == e.count
    && e.received == FilledBytes(e.slots) <= e.totalLen <= MAX_MESSAGE_SIZE
  }

  predicate TableOk(t: Table) {
    |t| <= MAX_INFLIGHT_MESSAGES && forall id | id in t :: EntryOk(t[id])
  }

  function FreshEntry(f: Fragment): Partial {
    Partial(f.count, f.totalLen, 0, seq(f.count, _ => None))
  }

  function EntryFor(t: Table, f: Fragment): Partial {
    if f.messageId in t then t[f.messageId] else FreshEntry(f)
  }

  /** Whether the fragment is stored in its slot. */
  predicate Stores(t: Table, f: Fragment)
    requires TableOk(t)
  {
    && Valid(f)
    && (f.messageId in t || |t| < MAX_INFLIGHT_MESSAGES)
    && var e := EntryFor(t, f);
    && e.count == f.count && e.totalLen == f.totalLen
    && e.slots[f.index].None? && e.received + |f.bytes| <= e.totalLen
  }

  function Stored(e: Partial, f: Fragment): Partial
    requires f.index < |e.slots|
  {
    e.(received := e.received + |f.bytes|, slots := e.slots[f.index := Some(f.bytes)])
  }

  function Push(t: Table, f: Fragment): (Table, Result<Option<Bytes>, OnionError>)
    requires TableOk(t)
  {
    if !Valid(f) then (t, Err(InvalidEncoding))
    else if f.messageId !in t && |t| >= MAX_INFLIGHT_MESSAGES then (t, Err(FragmentCapacity))
    else
      var e := EntryFor(t, f);
      var touched := t[f.messageId := e];
      if e.count != f.count || e.totalLen != f.totalLen then (touched, Err(InvalidEncoding))
      else if e.slots[f.index].Some? then (touched, Err(Replay))
      else if e.received + |f.bytes| > e.totalLen then (touched, Err(InvalidEncoding))
      else
        var next := Stored(e, f);
        var kept := t[f.messageId := next];
        if !Complete(next.slots) then (kept, Ok(None))
        else if next.received != next.totalLen then (kept, Err(InvalidEncoding))
        else (t - {f.messageId}, Ok(Some(Flatten(next.slots))))
  }

  lemma EntryForOk(t: Table, f: Fragment)
    requires TableOk(t) && Valid(f)
    ensures EntryOk(EntryFor(t, f))
    ensures EntryFor(t, f).count == f.count ==> f.index < |EntryFor(t, f).slots|
  {
    EmptySlots(FreshEntry(f).slots);
  }

  lemma StoredOk(t: Table, f: Fragment)
    requires TableOk(t) && Stores(t, f)
    ensures EntryOk(Stored(EntryFor(t, f), f))
  {
    EntryForOk(t, f);
    FillOneSlot(EntryFor(t, f).slots, f.index, f.bytes);
  }

  lemma ResizeTable(t: Table, id: Id16, e: Partial)
    requires TableOk(t) && EntryOk(e) && (id in t || |t| < MAX_INFLIGHT_MESSAGES)
    ensures TableOk(t[id := e]) && TableOk(t - {id})
  {
    assert (t - {id}).Keys == t.Keys - {id};
    assert t[id := e].Keys == t.Keys + {id};
    assert |t[id := e]| == |t[id := e].Keys|;
    assert |t - {id}| == |(t - {id}).Keys|;
  }

  /** Any fragment, valid or hostile, keeps the table bounded and every counter exact. */
  lemma PushKeepsTable(t: Table, f: Fragment)
    requires TableOk(t)
    ensures TableOk(Push(t, f).0)
  {
    if Valid(f) && (f.messageId in t || |t| < MAX_INFLIGHT_MESSAGES) {
      EntryForOk(t, f);
      ResizeTable(t, f.messageId, EntryFor(t, f));
      if Stores(t, f) {
        StoredOk(t, f);
        ResizeTable(t, f.messageId, Stored(EntryFor(t, f), f));
      }
    }
  }

  // ----- Runs -----

  /** The table after pushing fragments one by one. */
  function TableAfter(t: Table, fragments: seq<Fragment>): (after: Table)
    requires TableOk(t)
    ensures TableOk(after)
    decreases |fragments|
  {
    if fragments == [] then t
    else
      var n := |fragments| - 1;
      PushKeepsTable(TableAfter(t, fragments[..n]), fragments[n]);
      Push(TableAfter(t, fragments[..n]), fragments[n]).0
  }

  function Reply(t: Table, fragments: seq<Fragment>, k: nat): Result<Option<Bytes>, OnionError>
    requires TableOk(t) && k < |fragments|
  {
    Push(TableAfter(t, fragments[..k]), fragments[k]).1
  }

  /** The fragments of a run that were stored when they arrived. */
  function StoredLog(fragments: seq<Fragment>): seq<Fragment>
    decreases |fragments|
  {
    if fragments == [] then []
    else
      var n := |fragments| - 1;
      StoredLog(fragments[..n]) +
      (if Stores(TableAfter(map[], fragments[..n]), fragments[n]) then [fragments[n]] else [])
  }

  /** Every filled slot holds the bytes of a stored fragment of that message, position and shape. */
  ghost predicate Sourced(t: Table, log: seq<Fragment>) {
    forall id, i | id in t && 0 <= i < |t[id].slots| && t[id].slots[i].Some? ::
      exists f :: f in log && f.messageId == id && f.index == i && f.count == t[id].count
                  && f.totalLen == t[id].totalLen && f.bytes == t[id].slots[i].value
  }

  lemma PushKeepsSources(t: Table, f: Fragment, log: seq<Fragment>)
    requires TableOk(t) && Sourced(t, log)
    ensures Sourced(Push(t, f).0, log + (if Stores(t, f) then [f] else []))
  {
    var more := log + (if Stores(t, f) then [f] else []);
    var after := Push(t, f).0;
    forall id, i | id in after && 0 <= i < |after[id].slots| && after[id].slots[i].Some?
      ensures exists g :: g in more && g.messageId == id && g.index == i && g.count == after[id].count
                          && g.totalLen == after[id].totalLen && g.bytes == after[id].slots[i].value
    {
      if id == f.messageId && Stores(t, f) && i == f.index {
        assert f in more;
      } else {
        assert id in t && t[id].slots[i] == after[id].slots[i];
        var g :| g in log && g.messageId == id && g.index == i && g.count == t[id].count
                 && g.totalLen == t[id].totalLen && g.bytes == t[id].slots[i].value;
        assert g in more;
      }
    }
  }

  lemma {:induction false} RunKeepsSources(fragments: seq<Fragment>)
    ensures Sourced(TableAfter(map[], fragments), StoredLog(fragments))
    decreases |fragments|
  {
    if fragments != [] {
      var n := |fragments| - 1;
      RunKeepsSources(fragments[..n]);
      PushKeepsSources(TableAfter(map[], fragments[..n]), fragments[n], StoredLog(fragments[..n]));
    }
  }

  /**
   * On any run from empty, hostile fragments included, a returned message has exactly its declared
   * length and is the index-order concatenation of stored fragments of that one message.
   */
  lemma ReturnedMessageIsSourced(fragments: seq<Fragment>, k: nat) returns (parts: seq<Bytes>)
    requires k < |fragments| && Reply(map[], fragments, k).Ok? && Reply(map[], fragments, k).value.Some?
    ensures var f, message := fragments[k], Reply(map[], fragments, k).value.value;
            && |message| == f.totalLen && |parts| == f.count && message == Concat(parts)
            && forall i: u32 | i < f.count ::
                 Fragment(f.messageId, i, f.count, f.totalLen, parts[i]) in StoredLog(fragments[..k + 1])
  {
    hide Push;
    RunKeepsSources(fragments[..k]);
    assert fragments[..k + 1][..k] == fragments[..k];
    parts := CompletionIsSourced(TableAfter(map[], fragments[..k]), fragments[k], StoredLog(fragments[..k]));
  }

  lemma CompletionIsSourced(t: Table, f: Fragment, log: seq<Fragment>) returns (parts: seq<Bytes>)
    requires TableOk(t) && Sourced(t, log) && Push(t, f).1.Ok? && Push(t, f).1.value.Some?
    ensures Stores(t, f)
    ensures var message := Push(t, f).1.value.value;
            && |message| == f.totalLen && |parts| == f.count && message == Concat(parts)
            && forall i: u32 | i < f.count ::
                 Fragment(f.messageId, i, f.count, f.totalLen, parts[i]) in log + [f]
  {
    EntryForOk(t, f);
    StoredOk(t, f);
    var slots := Stored(EntryFor(t, f), f).slots;
    parts := Values(slots);
    FlattenIsConcat(slots);
    hide Push, Flatten, Concat, FilledBytes, Sourced;
    forall i: u32 | i < f.count
      ensures Fragment(f.messageId, i, f.count, f.totalLen, parts[i]) in log + [f]
    {
      if i == f.index {
        assert Fragment(f.messageId, i, f.count, f.totalLen, parts[i]) == f;
      } else {
        assert slots[i] == EntryFor(t, f).slots[i];
        assert f.messageId in t;
        SlotIsSourced(t, log, f.messageId, i);
      }
    }
  }

  lemma SlotIsSourced(t: Table, log: seq<Fragment>, id: Id16, i: u32)
    requires Sourced(t, log) && id in t && i < |t[id].slots| && t[id].slots[i].Some?
    ensures Fragment(id, i, t[id].count, t[id].totalLen, t[id].slots[i].value) in log
  {
    var g :| g in log && g.messageId == id && g.index == i && g.count == t[id].count
             && g.totalLen == t[id].totalLen && g.bytes == t[id].slots[i].value;
    assert g == Fragment(id, i, t[id].count, t[id].totalLen, t[id].slots[i].value);
  }
}
