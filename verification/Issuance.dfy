/** Blind issuance: how many requests of each member are counted, and how many credentials issued, in each epoch. */
module Issuance {
  import opened Common
  import opened Protocol
  import opened AnonymousAuth

  type Counters = map<(NodeId, u64), nat>

  /**
   * A request that has passed every check before it is counted, with whether signing then succeeds;
   * or a sweep of the counters.
   */
  datatype Visit = Ask(member: NodeId, now: u64, signs: bool) | Sweep(now: u64)

  function Since(counters: Counters, epoch: u64): Counters {
    map k | k in counters && k.1 >= epoch :: counters[k]
  }

  function CountOf(counters: Counters, member: NodeId, epoch: u64): nat {
    if (member, epoch) in counters then counters[(member, epoch)] else 0
  }

  predicate Counts(p: Policy, counters: Counters, v: Visit)
    requires ValidPolicy(p)
  {
    v.Ask? && Epoch(p, v.now).Some? && CountOf(counters, v.member, Epoch(p, v.now).value.0) < p.maxIssues
  }

  function Visited(p: Policy, counters: Counters, v: Visit): Counters
    requires ValidPolicy(p)
  {
    match Epoch(p, v.now)
    case None => counters
    case Some((epoch, _)) =>
      var kept := Since(counters, epoch);
      if v.Sweep? then kept
      else kept[(v.member, epoch) := CountOf(counters, v.member, epoch) + (if Counts(p, counters, v) then 1 else 0)]
  }

  function After(p: Policy, counters: Counters, visits: seq<Visit>): Counters
    requires ValidPolicy(p)
    decreases |visits|
  {
    if visits == [] then counters
    else Visited(p, After(p, counters, visits[..|visits| - 1]), visits[|visits| - 1])
  }

  predicate AsksFor(p: Policy, v: Visit, member: NodeId, epoch: u64)
    requires ValidPolicy(p)
  {
    v.Ask? && v.member == member && Epoch(p, v.now).Some? && Epoch(p, v.now).value.0 == epoch
  }

  function Asked(p: Policy, visits: seq<Visit>, member: NodeId, epoch: u64): nat
    requires ValidPolicy(p)
  {
    if visits == [] then 0
    else
      var last := |visits| - 1;
      Asked(p, visits[..last], member, epoch) + (if AsksFor(p, visits[last], member, epoch) then 1 else 0)
  }

  /** How many requests of the member a run counts for the epoch. */
  function Counted(p: Policy, visits: seq<Visit>, member: NodeId, epoch: u64): nat
    requires ValidPolicy(p)
  {
    if visits == [] then 0
    else
      var last := |visits| - 1;
      Counted(p, visits[..last], member, epoch) +
      (if AsksFor(p, visits[last], member, epoch) && Counts(p, After(p, map[], visits[..last]), visits[last])
       then 1 else 0)
  }

  /** How many of those end in a credential: a request that fails after it is counted does not. */
  function Issued(p: Policy, visits: seq<Visit>, member: NodeId, epoch: u64): nat
    requires ValidPolicy(p)
  {
    if visits == [] then 0
    else
      var last := |visits| - 1;
      Issued(p, visits[..last], member, epoch) +
      (if AsksFor(p, visits[last], member, epoch) && Counts(p, After(p, map[], visits[..last]), visits[last])
          && visits[last].signs then 1 else 0)
  }

  predicate AllSign(visits: seq<Visit>) {
    forall i | 0 <= i < |visits| && visits[i].Ask? :: visits[i].signs
  }

  lemma {:induction false} IssuedAreCounted(p: Policy, visits: seq<Visit>, member: NodeId, epoch: u64)
    requires ValidPolicy(p)
    ensures Issued(p, visits, member, epoch) <= Counted(p, visits, member, epoch)
    ensures AllSign(visits) ==> Issued(p, visits, member, epoch) == Counted(p, visits, member, epoch)
    decreases |visits|
  {
    if visits != [] { IssuedAreCounted(p, visits[..|visits| - 1], member, epoch); }
  }

  predicate TimeRises(visits: seq<Visit>) {
    forall i, j | 0 <= i < j < |visits| :: visits[i].now <= visits[j].now
  }

  function Least(a: nat, b: nat): nat { if a <= b then a else b }

  lemma EpochMonotone(p: Policy, a: u64, b: u64)
    requires ValidPolicy(p) && a <= b
    ensures a / p.epochSeconds <= b / p.epochSeconds
  {
    EpochBounds(p.epochSeconds, b);
    var x, y := a / p.epochSeconds, b / p.epochSeconds;
    assert a == x * p.epochSeconds + a % p.epochSeconds;
    if y + 1 <= x {
      MulMonotone(y + 1, x, p.epochSeconds);
    }
  }

  predicate NoLaterThan(p: Policy, visits: seq<Visit>, epoch: u64)
    requires ValidPolicy(p)
  {
    forall i | 0 <= i < |visits| :: visits[i].now / p.epochSeconds <= epoch
  }

  /**
   * While time has not passed an epoch, the member's counter for it is the number counted, and
   * that is the number asked for up to the limit.
   */
  lemma {:induction false} CounterIsCounted(p: Policy, visits: seq<Visit>, member: NodeId, epoch: u64)
    requires ValidPolicy(p) && NoLaterThan(p, visits, epoch)
    ensures CountOf(After(p, map[], visits), member, epoch) == Counted(p, visits, member, epoch)
    ensures Counted(p, visits, member, epoch) == Least(p.maxIssues, Asked(p, visits, member, epoch))
    decreases |visits|
  {
    if visits != [] {
      var last := |visits| - 1;
      CounterIsCounted(p, visits[..last], member, epoch);
      var v, before := visits[last], After(p, map[], visits[..last]);
      assert v.now / p.epochSeconds <= epoch;
      assert CountOf(Visited(p, before, v), member, epoch) == CountOf(before, member, epoch) +
        if AsksFor(p, v, member, epoch) && Counts(p, before, v) then 1 else 0;
    }
  }

  /** Once time has passed an epoch nothing more is counted for it. */
  lemma {:induction false} LaterVisitsCountNothing(p: Policy, visits: seq<Visit>, k: nat, member: NodeId, epoch: u64)
    requires ValidPolicy(p) && k <= |visits|
    requires forall i | k <= i < |visits| :: visits[i].now / p.epochSeconds > epoch
    ensures Counted(p, visits, member, epoch) == Counted(p, visits[..k], member, epoch)
    ensures Asked(p, visits, member, epoch) == Asked(p, visits[..k], member, epoch)
    decreases |visits|
  {
    if k == |visits| {
      assert visits[..k] == visits;
    } else {
      var last := |visits| - 1;
      LaterVisitsCountNothing(p, visits[..last], k, member, epoch);
      assert visits[..last][..k] == visits[..k];
    }
  }

  /**
   * While time does not go back, on every run and for every member and epoch, what is asked for is
   * counted up to the limit and never past it; no more credentials are issued than counted, and as
   * many unless signing fails.
   */
  lemma CountedUpToTheLimit(p: Policy, visits: seq<Visit>, member: NodeId, epoch: u64)
    requires ValidPolicy(p) && TimeRises(visits)
    ensures Counted(p, visits, member, epoch) == Least(p.maxIssues, Asked(p, visits, member, epoch))
    ensures Issued(p, visits, member, epoch) <= Counted(p, visits, member, epoch)
    ensures AllSign(visits) ==> Issued(p, visits, member, epoch) == Counted(p, visits, member, epoch)
  {
    var k := Passing(p, visits, epoch);
    LaterVisitsCountNothing(p, visits, k, member, epoch);
    CounterIsCounted(p, visits[..k], member, epoch);
    IssuedAreCounted(p, visits, member, epoch);
  }

  /** The first visit after the epoch, where the visits split. */
  lemma {:induction false} Passing(p: Policy, visits: seq<Visit>, epoch: u64) returns (k: nat)
    requires ValidPolicy(p) && TimeRises(visits)
    ensures k <= |visits| && NoLaterThan(p, visits[..k], epoch)
    ensures forall i | k <= i < |visits| :: visits[i].now / p.epochSeconds > epoch
  {
    k := 0;
    while k < |visits| && visits[k].now / p.epochSeconds <= epoch
      invariant k <= |visits| && NoLaterThan(p, visits[..k], epoch)
    {
      k := k + 1;
    }
    forall i | k <= i < |visits| ensures visits[i].now / p.epochSeconds > epoch {
      assert visits[k].now <= visits[i].now;
      EpochMonotone(p, visits[k].now, visits[i].now);
    }
  }

  function Asks(member: NodeId, n: nat): (visits: seq<Visit>)
    ensures |visits| == n && forall i | 0 <= i < n :: visits[i] == Ask(member, 0, true)
  {
    seq(n, _ => Ask(member, 0, true))
  }

  lemma {:induction false} AsksAreAsked(p: Policy, member: NodeId, n: nat)
    requires ValidPolicy(p)
    ensures Asked(p, Asks(member, n), member, 0) == n
    decreases n
  {
    FirstEpoch(p, 0);
    if n > 0 {
      AsksAreAsked(p, member, n - 1);
      assert Asks(member, n)[..n - 1] == Asks(member, n - 1);
    }
  }

  /** Whatever the limit, a clock that goes back forgets the counter, and one request more is counted. */
  lemma BackwardClockExceedsTheLimit(p: Policy, member: NodeId)
    requires ValidPolicy(p) && 2 * p.epochSeconds <= U64_MAX
    ensures Counted(p, Asks(member, p.maxIssues) + [Sweep(p.epochSeconds), Ask(member, 0, true)], member, 0)
            == p.maxIssues + 1
  {
    var asks, sweep, ask := Asks(member, p.maxIssues), Sweep(p.epochSeconds), Ask(member, 0, true);
    var swept := asks + [sweep];
    var visits := asks + [sweep, ask];
    FirstEpoch(p, 0);
    SecondEpoch(p);
    AsksAreAsked(p, member, p.maxIssues);
    assert NoLaterThan(p, asks, 0) by { assert 0 / p.epochSeconds == 0; }
    CounterIsCounted(p, asks, member, 0);
    assert visits[..|visits| - 1] == swept && swept[..|asks|] == asks;
    assert visits[|visits| - 1] == ask && swept[|swept| - 1] == sweep;
    assert After(p, map[], swept) == Visited(p, After(p, map[], asks), sweep);
    assert CountOf(After(p, map[], swept), member, 0) == 0;
    assert Counted(p, swept, member, 0) == p.maxIssues;
  }

  /** The issuer's counters in place. */
  class Issuer {
    var counters: Counters
    const policy: Policy

    constructor (policy: Policy)
      ensures this.policy == policy && counters == map[]
    {
      this.policy := policy;
      counters := map[];
    }

    /** The count taken before the blind signature; false is the issuance limit or an epoch out of range. */
    method Admit(member: NodeId, now: u64) returns (counted: bool)
      requires ValidPolicy(policy)
      modifies this
      ensures counted == Counts(policy, old(counters), Ask(member, now, true))
      ensures counters == Visited(policy, old(counters), Ask(member, now, true))
    {
      var e := Epoch(policy, now);
      if e.None? { return false; }
      var epoch := e.value.0;
      counters := map k | k in counters && k.1 >= epoch :: counters[k];
      if (member, epoch) !in counters { counters := counters[(member, epoch) := 0]; }
      counted := counters[(member, epoch)] < policy.maxIssues;
      if counted { counters := counters[(member, epoch) := counters[(member, epoch)] + 1]; }
    }

    method Prune(now: u64)
      requires ValidPolicy(policy)
      modifies this
      ensures counters == Visited(policy, old(counters), Sweep(now))
    {
      var e := Epoch(policy, now);
      if e.Some? {
        var epoch := e.value.0;
        counters := map k | k in counters && k.1 >= epoch :: counters[k];
      }
    }
  }
}
