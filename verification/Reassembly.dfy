/** Reassembly of a split message whose fragments arrive in any order among those of other messages. */
module Reassembly {
  import opened Common
  import opened OnionSetup
  import opened Fragments
  import opened Slots

  ghost predicate SplitsInto(id: Id16, message: Bytes, fragments: seq<Fragment>) {
    FragmentMessage(id, message) == Ok(fragments)
  }

  /** A slot list holding exactly the fragments that are no longer pending. */
  predicate Holds(slots: seq<Slot>, fragments: seq<Fragment>, pending: set<nat>) {
    && |slots| == |fragments|
    && forall i | 0 <= i < |slots| :: slots[i] == if i in pending then None else Some(fragments[i].bytes)
  }

  /** The table's view of one message: unknown before the first and after the last fragment. */
  ghost predicate Progress(t: Table, id: Id16, fragments: seq<Fragment>, total: nat, pending: set<nat>) {
    && pending <= Below(|fragments|)
    && if pending == {} || pending == Below(|fragments|) then id !in t
       else
         && id in t && t[id].count == |fragments| && t[id].totalLen == total
         && Holds(t[id].slots, fragments, pending)
  }

  lemma {:induction false} HeldBytes(slots: seq<Slot>, fragments: seq<Fragment>, pending: set<nat>, k: nat)
    requires Holds(slots, fragments, pending) && k <= |slots|
    ensures FilledBytes(slots[k..]) <= |Concat(Bodies(fragments)[k..])|
    ensures pending == {} ==> Flatten(slots[k..]) == Concat(Bodies(fragments)[k..])
    decreases |slots| - k
  {
    if k < |slots| {
      HeldBytes(slots, fragments, pending, k + 1);
      assert slots[k..][1..] == slots[k + 1..];
      assert Bodies(fragments)[k..][1..] == Bodies(fragments)[k + 1..];
    }
  }

  lemma HeldTotal(slots: seq<Slot>, id: Id16, message: Bytes, fragments: seq<Fragment>, pending: set<nat>)
    requires SplitsInto(id, message, fragments) && Holds(slots, fragments, pending)
    ensures FilledBytes(slots) <= |message|
    ensures pending == {} ==> Flatten(slots) == message
  {
    FragmentsRebuildMessage(id, message);
    HeldBytes(slots, fragments, pending, 0);
    assert slots[0..] == slots;
    assert Bodies(fragments)[0..] == Bodies(fragments);
  }

  /** The entry an expected fragment finds: what is known so far, or a fresh one. */
  lemma ExpectedEntry(t: Table, id: Id16, message: Bytes, fragments: seq<Fragment>, pending: set<nat>, i: nat)
    requires SplitsInto(id, message, fragments) && TableOk(t) && Progress(t, id, fragments, |message|, pending)
    requires i in pending
    ensures |fragments| >= 1 && i < |fragments| && Valid(fragments[i]) && fragments[i].messageId == id
    ensures fragments[i].index == i && fragments[i].count == |fragments| && fragments[i].totalLen == |message|
    ensures var e := EntryFor(t, fragments[i]);
            EntryOk(e) && e.count == |fragments| && e.totalLen == |message| && Holds(e.slots, fragments, pending)
  {
    FragmentsRebuildMessage(id, message);
    assert i in Below(|fragments|);
    EntryForOk(t, fragments[i]);
    if pending == Below(|fragments|) {
      forall j: nat | j < |fragments|
        ensures j in pending
      {
      }
    }
  }

  /** A missing fragment is stored; the last missing one returns the message. */
  lemma ExpectedPush(t: Table, id: Id16, message: Bytes, fragments: seq<Fragment>, pending: set<nat>, i: nat)
    requires SplitsInto(id, message, fragments) && TableOk(t) && Progress(t, id, fragments, |message|, pending)
    requires i in pending && (id in t || |t| < MAX_INFLIGHT_MESSAGES)
    ensures i < |fragments|
    ensures Push(t, fragments[i]).1 == Ok(if pending == {i} then Some(message) else None)
    ensures Progress(Push(t, fragments[i]).0, id, fragments, |message|, pending - {i})
  {
    ExpectedEntry(t, id, message, fragments, pending, i);
    hide FragmentMessage, FilledBytes, Flatten, Push, Holds, Complete;
    var f := fragments[i];
    var e := EntryFor(t, f);
    var next := Stored(e, f);
    SlotFilled(e.slots, fragments, pending, i);
    FillOneSlot(e.slots, i, f.bytes);
    HeldTotal(next.slots, id, message, fragments, pending - {i});
    PushStored(t, f);
    assert |Flatten(next.slots)| == FilledBytes(next.slots);
  }

  lemma SlotFilled(slots: seq<Slot>, fragments: seq<Fragment>, pending: set<nat>, i: nat)
    requires Holds(slots, fragments, pending) && pending <= Below(|fragments|) && i in pending
    ensures i < |slots| && slots[i].None?
    ensures Holds(slots[i := Some(fragments[i].bytes)], fragments, pending - {i})
    ensures Complete(slots[i := Some(fragments[i].bytes)]) <==> pending == {i}
    ensures pending == {i} <==> pending - {i} == {}
    ensures pending - {i} != Below(|fragments|)
  {
    var next, left := slots[i := Some(fragments[i].bytes)], pending - {i};
    assert i in Below(|fragments|);
    assert pending == left + {i};
    if left != {} {
      var j :| j in left;
      assert next[j].None?;
    }
  }

  lemma PushStored(t: Table, f: Fragment)
    requires TableOk(t) && Stores(t, f)
    ensures var next := Stored(EntryFor(t, f), f);
            Push(t, f) ==
            if !Complete(next.slots) then (t[f.messageId := next], Ok(None))
            else if next.received != next.totalLen then (t[f.messageId := next], Err(InvalidEncoding))
            else (t - {f.messageId}, Ok(Some(Flatten(next.slots))))
  {
    hide FilledBytes, Flatten;
  }

  /** Fragments of other messages do not touch this one. */
  lemma OtherPush(t: Table, id: Id16, fragments: seq<Fragment>, total: nat, pending: set<nat>, f: Fragment)
    requires TableOk(t) && Progress(t, id, fragments, total, pending) && f.messageId != id
    ensures Progress(Push(t, f).0, id, fragments, total, pending)
    ensures Push(t, f).0.Keys <= t.Keys + {f.messageId}
  {
    hide Holds, FilledBytes, Flatten;
  }

  // ----- Whole runs -----

  /** The events carry each fragment exactly once, among fragments of the other ids. */
  ghost predicate Interleaves(events: seq<Fragment>, id: Id16, fragments: seq<Fragment>, others: set<Id16>) {
    && (forall k | 0 <= k < |events| ::
        if events[k].messageId == id then events[k] in fragments else events[k].messageId in others)
    && (forall j, k | 0 <= j < k < |events| && events[j].messageId == id :: events[j] != events[k])
    && (forall i | 0 <= i < |fragments| :: fragments[i] in events)
  }

  function Pending(events: seq<Fragment>, id: Id16, n: nat): set<nat> {
    if events == [] then Below(n)
    else
      var last := |events| - 1;
      Pending(events[..last], id, n) - (if events[last].messageId == id then {events[last].index} else {})
  }

  lemma {:induction false} PendingMeans(events: seq<Fragment>, id: Id16, n: nat, i: nat)
    ensures i in Pending(events, id, n) <==>
            i < n && forall k | 0 <= k < |events| :: events[k].messageId == id ==> events[k].index != i
    decreases |events|
  {
    if events != [] {
      var last := |events| - 1;
      PendingMeans(events[..last], id, n, i);
      forall k | 0 <= k < last
        ensures events[k] == events[..last][k]
      {
      }
    }
  }

  /** An event of this message names a fragment that is still pending. */
  lemma EventIsPending(
    events: seq<Fragment>, id: Id16, message: Bytes, fragments: seq<Fragment>, others: set<Id16>, k: nat)
    requires SplitsInto(id, message, fragments) && Interleaves(events, id, fragments, others)
    requires k < |events| && events[k].messageId == id
    ensures var i := events[k].index;
            i < |fragments| && events[k] == fragments[i] && i in Pending(events[..k], id, |fragments|)
  {
    FragmentsRebuildMessage(id, message);
    hide FragmentMessage, Concat, Valid;
    var i := events[k].index;
    PendingMeans(events[..k], id, |fragments|, i);
    forall j | 0 <= j < k && events[j].messageId == id
      ensures events[j].index != i
    {
      assert events[j] in fragments && events[j] != events[k];
    }
  }

  lemma {:induction false} RunProgress(t: Table, id: Id16, message: Bytes, fragments: seq<Fragment>,
                                       events: seq<Fragment>, others: set<Id16>, k: nat)
    requires SplitsInto(id, message, fragments) && Interleaves(events, id, fragments, others)
    requires TableOk(t) && t.Keys <= others && id !in others && |others| < MAX_INFLIGHT_MESSAGES
    requires k <= |events|
    ensures Progress(TableAfter(t, events[..k]), id, fragments, |message|, Pending(events[..k], id, |fragments|))
    ensures TableAfter(t, events[..k]).Keys <= others + {id}
    decreases k
  {
    hide FragmentMessage, Push, TableOk, Interleaves, EntryOk, Holds;
    if k > 0 {
      OneMore(t, events, id, |fragments|, k - 1);
      RunProgress(t, id, message, fragments, events, others, k - 1);
      hide TableAfter, Pending, Progress, SplitsInto;
      RunStep(t, id, message, fragments, events, others, k - 1);
    }
  }

  lemma OneMore(t: Table, events: seq<Fragment>, id: Id16, n: nat, k: nat)
    requires TableOk(t) && k < |events|
    ensures TableAfter(t, events[..k + 1]) == Push(TableAfter(t, events[..k]), events[k]).0
    ensures Pending(events[..k + 1], id, n)
         == Pending(events[..k], id, n) - (if events[k].messageId == id then {events[k].index} else {})
  {
    hide Push, TableOk;
    assert events[..k + 1][..k] == events[..k];
  }

  lemma RoomForMessage(t: Table, id: Id16, others: set<Id16>)
    requires t.Keys <= others + {id} && |others| < MAX_INFLIGHT_MESSAGES
    ensures id in t || |t| < MAX_INFLIGHT_MESSAGES
  {
    if id !in t {
      assert t.Keys <= others;
      SubsetSize(t.Keys, others);
      assert |t| == |t.Keys|;
    }
  }

  lemma RunStep(t: Table, id: Id16, message: Bytes, fragments: seq<Fragment>,
                events: seq<Fragment>, others: set<Id16>, k: nat)
    requires SplitsInto(id, message, fragments) && Interleaves(events, id, fragments, others)
    requires TableOk(t) && id !in others && |others| < MAX_INFLIGHT_MESSAGES && k < |events|
    requires var pending := Pending(events[..k], id, |fragments|);
             && Progress(TableAfter(t, events[..k]), id, fragments, |message|, pending)
             && TableAfter(t, events[..k]).Keys <= others + {id}
    ensures var before := TableAfter(t, events[..k]);
            var pending := Pending(events[..k], id, |fragments|);
            var (after, reply) := Push(before, events[k]);
            && after.Keys <= others + {id}
            && (events[k].messageId == id ==> reply == Ok(if pending == {events[k].index} then Some(message) else None))
            && Progress(after, id, fragments, |message|,
                        pending - (if events[k].messageId == id then {events[k].index} else {}))
  {
    var before, pending := TableAfter(t, events[..k]), Pending(events[..k], id, |fragments|);
    RoomForMessage(before, id, others);
    PushKeys(before, events[k]);
    hide FragmentMessage, Push;
    if events[k].messageId == id {
      EventIsPending(events, id, message, fragments, others, k);
      ExpectedPush(before, id, message, fragments, pending, events[k].index);
    } else {
      OtherPush(before, id, fragments, |message|, pending, events[k]);
      assert pending - {} == pending;
    }
  }

  lemma PushKeys(t: Table, f: Fragment)
    requires TableOk(t)
    ensures Push(t, f).0.Keys <= t.Keys + {f.messageId}
  {
    hide FilledBytes, Flatten;
  }

  lemma {:induction false} LastMine(events: seq<Fragment>, id: Id16) returns (last: nat)
    requires exists k :: 0 <= k < |events| && events[k].messageId == id
    ensures last < |events| && events[last].messageId == id
    ensures forall k | last < k < |events| :: events[k].messageId != id
    decreases |events|
  {
    var n := |events| - 1;
    if events[n].messageId == id {
      last := n;
    } else {
      assert exists k :: 0 <= k < |events[..n]| && events[..n][k].messageId == id;
      last := LastMine(events[..n], id);
      assert forall k | last < k < n :: events[..n][k].messageId != id;
    }
  }

  /**
   * A message split and sent in any order, interleaved with any traffic of up to fifteen other
   * message ids, comes back unchanged, exactly once, at its last missing fragment, and leaves no
   * entry behind.
   */
  lemma AnyOrderReassembles(t: Table, id: Id16, message: Bytes, fragments: seq<Fragment>,
                            events: seq<Fragment>, others: set<Id16>)
    returns (last: nat)
    requires SplitsInto(id, message, fragments) && Interleaves(events, id, fragments, others)
    requires TableOk(t) && t.Keys <= others && id !in others && |others| < MAX_INFLIGHT_MESSAGES
    ensures last < |events| && Reply(t, events, last) == Ok(Some(message))
    ensures forall k | 0 <= k < |events| && events[k].messageId == id && k != last ::
              k < last && Reply(t, events, k) == Ok(None)
    ensures id !in TableAfter(t, events)
  {
    FragmentsRebuildMessage(id, message);
    hide FragmentMessage, Push, Concat, Valid, TableOk;
    assert fragments[0] in events;
    last := LastMine(events, id);
    NothingPendingAfter(events, id, message, fragments, others, last);
    forall k | 0 <= k < |events| && events[k].messageId == id
      ensures k <= last
      ensures Reply(t, events, k) == Ok(if k == last then Some(message) else None)
    {
      RunProgress(t, id, message, fragments, events, others, k);
      RunStep(t, id, message, fragments, events, others, k);
      OnlyPendingAtLast(events, id, message, fragments, others, last, k);
    }
    RunProgress(t, id, message, fragments, events, others, |events|);
    assert events[..|events|] == events;
    NothingPendingAtEnd(events, id, |fragments|, last);
  }

  lemma NothingPendingAfter(
    events: seq<Fragment>, id: Id16, message: Bytes, fragments: seq<Fragment>, others: set<Id16>, last: nat)
    requires SplitsInto(id, message, fragments) && Interleaves(events, id, fragments, others)
    requires last < |events| && forall k | last < k < |events| :: events[k].messageId != id
    ensures Pending(events[..last + 1], id, |fragments|) == {}
  {
    FragmentsRebuildMessage(id, message);
    hide FragmentMessage, Concat, Valid;
    var pending := Pending(events[..last + 1], id, |fragments|);
    forall i: nat | i < |fragments|
      ensures i !in pending
    {
      PendingMeans(events[..last + 1], id, |fragments|, i);
      assert fragments[i] in events;
      var k :| 0 <= k < |events| && events[k] == fragments[i];
      assert events[..last + 1][k] == events[k];
    }
    forall i: nat | i >= |fragments|
      ensures i !in pending
    {
      PendingMeans(events[..last + 1], id, |fragments|, i);
    }
    assert forall i: nat :: i !in pending;
  }

  lemma NothingPendingAtEnd(events: seq<Fragment>, id: Id16, n: nat, last: nat)
    requires last < |events| && Pending(events[..last + 1], id, n) == {}
    ensures Pending(events, id, n) == {}
  {
    if Pending(events, id, n) != {} {
      var i :| i in Pending(events, id, n);
      PendingMeans(events, id, n, i);
      PendingMeans(events[..last + 1], id, n, i);
    }
  }

  lemma OnlyPendingAtLast(events: seq<Fragment>, id: Id16, message: Bytes, fragments: seq<Fragment>, others: set<Id16>,
                          last: nat, k: nat)
    requires SplitsInto(id, message, fragments) && Interleaves(events, id, fragments, others)
    requires k <= last < |events| && events[k].messageId == id && events[last].messageId == id
    requires Pending(events[..last + 1], id, |fragments|) == {}
    ensures Pending(events[..k], id, |fragments|) == {events[k].index} <==> k == last
  {
    EventIsPending(events, id, message, fragments, others, k);
    EventIsPending(events, id, message, fragments, others, last);
    hide FragmentMessage;
    if k == last {
      assert events[..last + 1][..last] == events[..last];
    } else {
      PendingMeans(events[..k], id, |fragments|, events[last].index);
      PendingMeans(events[..last], id, |fragments|, events[last].index);
      assert events[..last][k] == events[k];
    }
  }

  lemma Overwrites(t: Table, id: Id16, a: Partial, b: Partial)
    ensures t[id := a][id := b] == t[id := b]
    ensures t[id := b] - {id} == t - {id}
  {
  }

  /** The bounded in-memory reassembler, updated in place. */
  class Reassembler {
    var messages: Table

    ghost predicate Valid()
      reads this
    {
      TableOk(messages)
    }

    constructor ()
      ensures Valid() && messages == map[]
    {
      messages := map[];
    }

    method Accept(f: Fragment) returns (r: Result<Option<Bytes>, OnionError>)
      requires Valid()
      modifies this
      ensures (messages, r) == Push(old(messages), f)
      ensures Valid()
    {
      PushKeepsTable(messages, f);
      if !Fragments.Valid(f) {
        return Err(InvalidEncoding);
      }
      if f.messageId !in messages && |messages| >= MAX_INFLIGHT_MESSAGES {
        return Err(FragmentCapacity);
      }
      EntryForOk(messages, f);
      hide FilledBytes, Flatten, TableOk, EntryOk, Fragments.Valid;
      var entry := if f.messageId in messages then messages[f.messageId] else FreshEntry(f);
      messages := messages[f.messageId := entry];
      if entry.count != f.count || entry.totalLen != f.totalLen {
        return Err(InvalidEncoding);
      }
      if entry.slots[f.index].Some? {
        return Err(Replay);
      }
      if entry.received + |f.bytes| > entry.totalLen {
        return Err(InvalidEncoding);
      }
      assert Stores(old(messages), f);
      hide Push;
      r := Fill(f, entry, old(messages));
    }

    /** Fills an empty slot; the last slot of a message of the declared length releases it. */
    method Fill(f: Fragment, found: Partial, ghost before: Table) returns (r: Result<Option<Bytes>, OnionError>)
      requires TableOk(before) && Stores(before, f) && found == EntryFor(before, f)
      requires messages == before[f.messageId := found]
      modifies this
      ensures (messages, r) == Push(before, f)
    {
      EntryForOk(before, f);
      PushStored(before, f);
      hide Push, FilledBytes, Flatten, TableOk, EntryOk, Fragments.Valid;
      Overwrites(before, f.messageId, found, Stored(found, f));
      var entry := found.(received := found.received + |f.bytes|, slots := found.slots[f.index := Some(f.bytes)]);
      messages := messages[f.messageId := entry];
      if exists i | 0 <= i < |entry.slots| :: entry.slots[i].None? {
        return Ok(None);
      }
      if entry.received != entry.totalLen {
        return Err(InvalidEncoding);
      }
      messages := messages - {f.messageId};
      var message := Join(entry.slots);
      return Ok(Some(message));
    }
  }
}
