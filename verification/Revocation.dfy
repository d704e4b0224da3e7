/** The revoked set as a fold over ledger events, and as what each member's last event says. */
module Revocation {
  import opened Common
  import opened Protocol

  datatype Change = Change(member: NodeId, revoked: bool)

  function ChangeOf(e: SignedEvent): Option<Change> {
    match e.event
    case NodeRevoked(member) => Some(Change(member, true))
    case NodeJoined(member) => Some(Change(member, false))
    case _ => None
  }

  function ChangesOf(events: seq<SignedEvent>): seq<Change> {
    if events == [] then []
    else ChangesOf(events[..|events| - 1]) + AsList(ChangeOf(events[|events| - 1]))
  }

  function AsList(c: Option<Change>): seq<Change> {
    if c.Some? then [c.value] else []
  }

  /** The in-order fold the node performs. */
  function Apply(revoked: set<NodeId>, changes: seq<Change>): set<NodeId> {
    if changes == [] then revoked
    else
      var last := changes[|changes| - 1];
      var before := Apply(revoked, changes[..|changes| - 1]);
      if last.revoked then before + {last.member} else before - {last.member}
  }

  /** What the last join or revoke event of a member says. */
  function LastWord(events: seq<SignedEvent>, member: NodeId): Option<bool> {
    if events == [] then None
    else
      var last := events[|events| - 1].event;
      if last == NodeRevoked(member) then Some(true)
      else if last == NodeJoined(member) then Some(false)
      else LastWord(events[..|events| - 1], member)
  }

  ghost predicate NeverJoins(events: seq<SignedEvent>, member: NodeId) {
    forall j | 0 <= j < |events| :: events[j].event != NodeJoined(member)
  }

  /** Some event revokes the member, and none after it lets the member join. */
  ghost predicate RevokedIn(events: seq<SignedEvent>, member: NodeId) {
    exists i :: 0 <= i < |events| && events[i].event == NodeRevoked(member)
                && forall j | i < j < |events| :: events[j].event != NodeJoined(member)
  }

  lemma {:induction false} ApplyConcat(revoked: set<NodeId>, a: seq<Change>, b: seq<Change>)
    ensures Apply(revoked, a + b) == Apply(Apply(revoked, a), b)
    decreases |b|
  {
    if b == [] {
      assert a + b == a;
    } else {
      var n := |b| - 1;
      ApplyConcat(revoked, a, b[..n]);
      assert (a + b)[..|a + b| - 1] == a + b[..n];
    }
  }

  lemma {:induction false} ChangesConcat(a: seq<SignedEvent>, b: seq<SignedEvent>)
    ensures ChangesOf(a + b) == ChangesOf(a) + ChangesOf(b)
    decreases |b|
  {
    hide ChangeOf, AsList;
    if b == [] {
      assert a + b == a;
    } else {
      var n := |b| - 1;
      ChangesConcat(a, b[..n]);
      assert (a + b)[..|a + b| - 1] == a + b[..n];
    }
  }

  /** Folding events revokes exactly whom one of them revokes with no join after it, and whom none lets join again. */
  lemma {:induction false} FoldRevokesExactly(base: set<NodeId>, events: seq<SignedEvent>, member: NodeId)
    ensures member in Apply(base, ChangesOf(events)) <==>
            RevokedIn(events, member) || (member in base && NeverJoins(events, member))
    decreases |events|
  {
    if events != [] {
      var n := |events| - 1;
      FoldRevokesExactly(base, events[..n], member);
      ApplyLast(base, events);
      OneEventMore(events, member);
      hide Apply, ChangesOf, RevokedIn, NeverJoins;
    }
  }

  lemma OneEventMore(events: seq<SignedEvent>, member: NodeId)
    requires events != []
    ensures var front, last := events[..|events| - 1], events[|events| - 1].event;
            && (RevokedIn(events, member) <==>
                last == NodeRevoked(member) || (RevokedIn(front, member) && last != NodeJoined(member)))
            && (NeverJoins(events, member) <==> NeverJoins(front, member) && last != NodeJoined(member))
  {
    var n := |events| - 1;
    var front := events[..n];
    if RevokedIn(front, member) && events[n].event != NodeJoined(member) {
      var i :| 0 <= i < n && front[i].event == NodeRevoked(member)
               && forall j | i < j < n :: front[j].event != NodeJoined(member);
      assert events[i].event == NodeRevoked(member);
      assert forall j | i < j < n :: events[j] == front[j];
    }
    if RevokedIn(events, member) && events[n].event != NodeRevoked(member) {
      var i :| 0 <= i < |events| && events[i].event == NodeRevoked(member)
               && forall j | i < j < |events| :: events[j].event != NodeJoined(member);
      assert front[i].event == NodeRevoked(member);
    }
    assert forall j | 0 <= j < n :: events[j] == front[j];
  }

  /** The same, through what the last event of a member says. */
  lemma {:induction false} LastEventWins(base: set<NodeId>, events: seq<SignedEvent>, member: NodeId)
    ensures member in Apply(base, ChangesOf(events)) <==>
            match LastWord(events, member) { case Some(revoked) => revoked case None => member in base }
    decreases |events|
  {
    if events != [] {
      var n := |events| - 1;
      LastEventWins(base, events[..n], member);
      ApplyLast(base, events);
      hide Apply, ChangesOf;
    }
  }

  lemma ApplyLast(base: set<NodeId>, events: seq<SignedEvent>)
    requires events != []
    ensures var before := Apply(base, ChangesOf(events[..|events| - 1]));
            Apply(base, ChangesOf(events)) ==
            match ChangeOf(events[|events| - 1]) {
              case Some(c) => if c.revoked then before + {c.member} else before - {c.member}
              case None => before
            }
  {
    hide ChangeOf;
    var before, c := ChangesOf(events[..|events| - 1]), ChangeOf(events[|events| - 1]);
    if c.Some? {
      assert (before + [c.value])[..|before|] == before;
    } else {
      assert before + [] == before;
    }
  }

  /** Events that change nobody's standing add no change. */
  lemma NoChange(events: seq<SignedEvent>, e: SignedEvent)
    requires ChangeOf(e) == None
    ensures ChangesOf(events + [e]) == ChangesOf(events)
  {
    assert (events + [e])[..|events|] == events;
    assert ChangesOf(events) + [] == ChangesOf(events);
  }
}
