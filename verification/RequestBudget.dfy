/** The node's request rate limit: one fixed window with a global and a per-identity counter. */
module RequestBudget {
  import opened Common
  import opened Protocol
  import MapSums

  const REQUEST_WINDOW_MILLIS: u64 := 60_000
  const MAX_PER_IDENTITY: nat := 4_096
  const MAX_GLOBAL: nat := 16_384

  datatype Budget = Budget(windowStartedAt: u64, global: nat, identities: map<NodeId, nat>)

  datatype Request = Request(signer: NodeId, at: u64)

  function Spent(b: Budget, signer: NodeId): nat {
    if signer in b.identities then b.identities[signer] else 0
  }

  predicate Expired(b: Budget, at: u64) {
    SaturatingSub(at, b.windowStartedAt) >= REQUEST_WINDOW_MILLIS
  }

  function Refresh(b: Budget, at: u64): Budget {
    if Expired(b, at) then Budget(at, 0, map[]) else b
  }

  predicate Admits(b: Budget, r: Request) {
    var w := Refresh(b, r.at);
    w.global < MAX_GLOBAL && Spent(w, r.signer) < MAX_PER_IDENTITY
  }

  /** The budget after `n` admitted requests of one signer. */
  function Charged(b: Budget, signer: NodeId, n: nat): Budget {
    if n == 0 then b
    else b.(global := b.global + n, identities := b.identities[signer := Spent(b, signer) + n])
  }

  function Consume(b: Budget, r: Request): Budget {
    if Admits(b, r) then Charged(Refresh(b, r.at), r.signer, 1) else Refresh(b, r.at)
  }

  /** The global counter is the sum of the identities' counters, and none exceeds its limit. */
  ghost predicate Counted(b: Budget) {
    && b.global == MapSums.Sum(b.identities) <= MAX_GLOBAL
    && forall id | id in b.identities :: b.identities[id] <= MAX_PER_IDENTITY
  }

  lemma ConsumeKeepsCount(b: Budget, r: Request)
    requires Counted(b)
    ensures Counted(Consume(b, r))
  {
    RefreshKeepsCount(b, r.at);
    hide Counted, Refresh, Charged;
    if Admits(b, r) { ChargeKeepsCount(Refresh(b, r.at), r.signer); }
  }

  /** A request in terms of the refreshed window. */
  lemma ConsumeCases(b: Budget, r: Request)
    ensures var w := Refresh(b, r.at);
            && Admits(b, r) == (w.global < MAX_GLOBAL && Spent(w, r.signer) < MAX_PER_IDENTITY)
            && Consume(b, r) ==
               if Admits(b, r)
               then Budget(w.windowStartedAt, w.global + 1, w.identities[r.signer := Spent(w, r.signer) + 1]) else w
  {
    hide Refresh, Spent;
  }

  lemma ChargeKeepsCount(w: Budget, signer: NodeId)
    requires Counted(w) && w.global < MAX_GLOBAL && Spent(w, signer) < MAX_PER_IDENTITY
    ensures Counted(Charged(w, signer, 1))
  {
    hide MapSums.Sum;
    MapSums.SumStore(w.identities, signer, Spent(w, signer) + 1);
    if signer in w.identities { MapSums.SumRemove(w.identities, signer); }
  }

  lemma RefreshKeepsCount(b: Budget, at: u64)
    requires Counted(b)
    ensures Counted(Refresh(b, at))
  {
  }

  // ----- Runs -----

  function After(b: Budget, requests: seq<Request>): Budget
    decreases |requests|
  {
    if requests == [] then b else After(Consume(b, requests[0]), requests[1..])
  }

  function Admitted(b: Budget, requests: seq<Request>): nat
    decreases |requests|
  {
    if requests == [] then 0
    else (if Admits(b, requests[0]) then 1 else 0) + Admitted(Consume(b, requests[0]), requests[1..])
  }

  function AdmittedFrom(b: Budget, requests: seq<Request>, signer: NodeId): nat
    decreases |requests|
  {
    if requests == [] then 0
    else (if Admits(b, requests[0]) && requests[0].signer == signer then 1 else 0)
         + AdmittedFrom(Consume(b, requests[0]), requests[1..], signer)
  }

  predicate Rising(requests: seq<Request>) {
    forall i, j | 0 <= i <= j < |requests| :: requests[i].at <= requests[j].at
  }

  lemma {:induction false} RunKeepsCount(b: Budget, requests: seq<Request>)
    requires Counted(b)
    ensures Counted(After(b, requests))
    decreases |requests|
  {
    hide Counted, Consume;
    if requests != [] {
      ConsumeKeepsCount(b, requests[0]);
      RunKeepsCount(Consume(b, requests[0]), requests[1..]);
    }
  }

  /** While the window lasts, what is admitted is what is left of each limit, at most. */
  lemma {:induction false} WithinOneWindow(b: Budget, requests: seq<Request>, signer: NodeId)
    requires b.global <= MAX_GLOBAL && Spent(b, signer) <= MAX_PER_IDENTITY
    requires forall i | 0 <= i < |requests| :: !Expired(b, requests[i].at)
    ensures Admitted(b, requests) <= MAX_GLOBAL - b.global
    ensures AdmittedFrom(b, requests, signer) <= MAX_PER_IDENTITY - Spent(b, signer)
    decreases |requests|
  {
    if requests != [] {
      var next := Consume(b, requests[0]);
      assert next.windowStartedAt == b.windowStartedAt;
      forall i | 0 <= i < |requests| - 1
        ensures !Expired(next, requests[1..][i].at)
      {
        assert requests[1..][i] == requests[i + 1];
      }
      WithinOneWindow(next, requests[1..], signer);
    }
  }

  /** A span shorter than a window meets at most one reset, so at most two allowances. */
  lemma {:induction false} ShortSpan(b: Budget, requests: seq<Request>, signer: NodeId, from: u64)
    requires b.global <= MAX_GLOBAL && Spent(b, signer) <= MAX_PER_IDENTITY
    requires forall i | 0 <= i < |requests| :: from <= requests[i].at < from + REQUEST_WINDOW_MILLIS
    ensures Admitted(b, requests) <= MAX_GLOBAL - b.global + MAX_GLOBAL
    ensures AdmittedFrom(b, requests, signer) <= MAX_PER_IDENTITY - Spent(b, signer) + MAX_PER_IDENTITY
    decreases |requests|
  {
    if requests != [] {
      var first, rest := requests[0], requests[1..];
      var next := Consume(b, first);
      forall i | 0 <= i < |rest|
        ensures from <= rest[i].at < from + REQUEST_WINDOW_MILLIS
      {
        assert rest[i] == requests[i + 1];
      }
      if Expired(b, first.at) {
        assert next.windowStartedAt == first.at;
        WithinOneWindow(next, rest, signer);
      } else {
        ShortSpan(next, rest, signer, from);
      }
    }
  }

  /**
   * In any run with a clock that never goes back, any interval shorter than one window admits at most
   * twice the global limit in total and twice the identity limit from one signer.
   */
  lemma AnyIntervalIsBounded(b: Budget, requests: seq<Request>, i: nat, j: nat, signer: NodeId)
    requires Counted(b) && Rising(requests) && i < j <= |requests|
    requires requests[j - 1].at - requests[i].at < REQUEST_WINDOW_MILLIS
    ensures Admitted(After(b, requests[..i]), requests[i..j]) <= 2 * MAX_GLOBAL
    ensures AdmittedFrom(After(b, requests[..i]), requests[i..j], signer) <= 2 * MAX_PER_IDENTITY
  {
    RunKeepsCount(b, requests[..i]);
    ShortSpan(After(b, requests[..i]), requests[i..j], signer, requests[i].at);
  }

  // ----- The factor two is reached -----

  function Repeat(r: Request, n: nat): (requests: seq<Request>)
    ensures |requests| == n
    decreases n
  {
    if n == 0 then [] else [r] + Repeat(r, n - 1)
  }

  lemma ChargeOnce(b: Budget, r: Request, n: nat)
    requires !Expired(b, r.at) && b.global < MAX_GLOBAL && Spent(b, r.signer) < MAX_PER_IDENTITY
    ensures Admits(b, r) && Consume(b, r) == Charged(b, r.signer, 1)
    ensures Charged(Charged(b, r.signer, 1), r.signer, n) == Charged(b, r.signer, n + 1)
    ensures var c := Charged(b, r.signer, 1);
            !Expired(c, r.at) && c.global == b.global + 1 && Spent(c, r.signer) == Spent(b, r.signer) + 1
  {
    var m := b.identities[r.signer := Spent(b, r.signer) + 1];
    assert m[r.signer := Spent(b, r.signer) + 1 + n] == b.identities[r.signer := Spent(b, r.signer) + 1 + n];
  }

  lemma {:induction false} RepeatIsAdmitted(b: Budget, r: Request, n: nat, rest: seq<Request>)
    requires !Expired(b, r.at) && b.global + n <= MAX_GLOBAL && Spent(b, r.signer) + n <= MAX_PER_IDENTITY
    ensures AdmittedFrom(b, Repeat(r, n) + rest, r.signer) == n + AdmittedFrom(Charged(b, r.signer, n), rest, r.signer)
    decreases n
  {
    var all := Repeat(r, n) + rest;
    if n == 0 {
      assert all == rest;
    } else {
      hide Charged, Consume, Admits, Expired, Spent;
      assert all[0] == r && all[1..] == Repeat(r, n - 1) + rest;
      ChargeOnce(b, r, n - 1);
      RepeatIsAdmitted(Charged(b, r.signer, 1), r, n - 1, rest);
    }
  }

  /** One signer gets its full allowance at the end of a window and again one millisecond later. */
  lemma BoundIsReached(signer: NodeId, start: u64)
    requires start + REQUEST_WINDOW_MILLIS <= U64_MAX
    ensures var end := start + REQUEST_WINDOW_MILLIS;
            var late, later := Request(signer, end - 1), Request(signer, end);
            var requests := Repeat(late, MAX_PER_IDENTITY) + Repeat(later, MAX_PER_IDENTITY);
            AdmittedFrom(Budget(start, 0, map[]), requests, signer) == 2 * MAX_PER_IDENTITY
  {
    var end := start + REQUEST_WINDOW_MILLIS;
    var late, later := Request(signer, end - 1), Request(signer, end);
    var n := MAX_PER_IDENTITY;
    SecondAllowance(Budget(start, n, map[signer := n]), later, n);
    RepeatIsAdmitted(Budget(start, 0, map[]), late, n, Repeat(later, n));
    assert map[][signer := n] == map[signer := n];
  }

  lemma SecondAllowance(b: Budget, r: Request, n: nat)
    requires Expired(b, r.at) && n <= MAX_PER_IDENTITY
    ensures AdmittedFrom(b, Repeat(r, n), r.signer) == n
  {
    if n > 0 {
      var renewed := Budget(r.at, 0, map[]);
      assert Repeat(r, n)[0] == r && Repeat(r, n)[1..] == Repeat(r, n - 1);
      RepeatIsAdmitted(renewed, r, n, []);
      assert Repeat(r, n) + [] == Repeat(r, n);
      assert Consume(b, r) == Consume(renewed, r);
    }
  }

  /** `n` requests of each signer in turn. */
  function FromEach(signers: seq<NodeId>, at: u64, n: nat): seq<Request> {
    if signers == [] then [] else Repeat(Request(signers[0], at), n) + FromEach(signers[1..], at, n)
  }

  function ChargedEach(b: Budget, signers: seq<NodeId>, n: nat): Budget
    decreases |signers|
  {
    if signers == [] then b else ChargedEach(Charged(b, signers[0], n), signers[1..], n)
  }

  predicate DistinctSigners(signers: seq<NodeId>) {
    forall i, j | 0 <= i < j < |signers| :: signers[i] != signers[j]
  }

  lemma {:induction false} RepeatCounts(b: Budget, r: Request, n: nat, rest: seq<Request>)
    requires !Expired(b, r.at) && b.global + n <= MAX_GLOBAL && Spent(b, r.signer) + n <= MAX_PER_IDENTITY
    ensures Admitted(b, Repeat(r, n) + rest) == n + Admitted(Charged(b, r.signer, n), rest)
    decreases n
  {
    var all := Repeat(r, n) + rest;
    if n == 0 {
      assert all == rest;
    } else {
      hide Charged, Consume, Admits, Expired, Spent;
      assert all[0] == r && all[1..] == Repeat(r, n - 1) + rest;
      ChargeOnce(b, r, n - 1);
      RepeatCounts(Charged(b, r.signer, 1), r, n - 1, rest);
    }
  }

  lemma {:induction false} EachCounts(b: Budget, signers: seq<NodeId>, at: u64, n: nat, rest: seq<Request>)
    requires !Expired(b, at) && n <= MAX_PER_IDENTITY && DistinctSigners(signers)
    requires 0 <= |signers| * n && b.global + |signers| * n <= MAX_GLOBAL
    requires forall i | 0 <= i < |signers| :: Spent(b, signers[i]) == 0
    ensures Admitted(b, FromEach(signers, at, n) + rest) == |signers| * n + Admitted(ChargedEach(b, signers, n), rest)
    ensures ChargedEach(b, signers, n).windowStartedAt == b.windowStartedAt
    decreases |signers|
  {
    if signers == [] {
      assert FromEach(signers, at, n) + rest == rest;
    } else {
      var r, others := Request(signers[0], at), signers[1..];
      var first, tail := Repeat(r, n), FromEach(others, at, n) + rest;
      assert FromEach(signers, at, n) + rest == first + tail;
      assert |signers| * n == n + |others| * n;
      MulNonNegative(|others|, n);
      RepeatCounts(b, r, n, tail);
      var charged := Charged(b, signers[0], n);
      forall i | 0 <= i < |others| ensures Spent(charged, others[i]) == 0 {
        assert others[i] == signers[i + 1] != signers[0];
      }
      EachCounts(charged, others, at, n, rest);
    }
  }

  lemma FreshWindow(b: Budget, requests: seq<Request>)
    requires requests != []
    ensures Admitted(b, requests) == Admitted(Refresh(b, requests[0].at), requests)
  {
    var r := requests[0];
    assert Refresh(Refresh(b, r.at), r.at) == Refresh(b, r.at);
  }

  /** So is the global bound: four signers get both allowances one millisecond apart. */
  lemma GlobalBoundIsReached(signers: seq<NodeId>, start: u64)
    requires |signers| == 4 && DistinctSigners(signers) && start + REQUEST_WINDOW_MILLIS <= U64_MAX
    ensures var late, later := start + REQUEST_WINDOW_MILLIS - 1, start + REQUEST_WINDOW_MILLIS;
            Admitted(Budget(start, 0, map[]),
                     FromEach(signers, late, MAX_PER_IDENTITY) + FromEach(signers, later, MAX_PER_IDENTITY))
            == 2 * MAX_GLOBAL
  {
    var late, later, n := start + REQUEST_WINDOW_MILLIS - 1, start + REQUEST_WINDOW_MILLIS, MAX_PER_IDENTITY;
    var second := FromEach(signers, later, n);
    EachCounts(Budget(start, 0, map[]), signers, late, n, second);
    var b := ChargedEach(Budget(start, 0, map[]), signers, n);
    assert second[0] == Request(signers[0], later) by {
      assert Repeat(Request(signers[0], later), n)[0] == Request(signers[0], later);
    }
    FreshWindow(b, second);
    EachCounts(Budget(later, 0, map[]), signers, later, n, []);
    assert second + [] == second;
    assert Refresh(b, later) == Budget(later, 0, map[]);
  }

  // ----- In place -----

  class RateLimiter {
    var windowStartedAt: u64
    var global: nat
    var identities: map<NodeId, nat>

    function View(): Budget
      reads this
    {
      Budget(windowStartedAt, global, identities)
    }

    constructor (now: u64)
      ensures View() == Budget(now, 0, map[]) && Counted(View())
    {
      windowStartedAt, global, identities := now, 0, map[];
    }

    method Take(signer: NodeId, at: u64) returns (admitted: bool)
      requires Counted(View())
      modifies this
      ensures View() == Consume(old(View()), Request(signer, at))
      ensures admitted == Admits(old(View()), Request(signer, at))
      ensures Counted(View())
    {
      ghost var w := Refresh(View(), at);
      ConsumeKeepsCount(View(), Request(signer, at));
      ConsumeCases(View(), Request(signer, at));
      hide Counted, Consume, Admits, Charged;
      if SaturatingSub(at, windowStartedAt) >= REQUEST_WINDOW_MILLIS {
        windowStartedAt, global, identities := at, 0, map[];
      }
      assert View() == w;
      hide Refresh;
      if global >= MAX_GLOBAL {
        return false;
      }
      var count := if signer in identities then identities[signer] else 0;
      if count >= MAX_PER_IDENTITY {
        return false;
      }
      identities := identities[signer := count + 1];
      global := global + 1;
      return true;
    }
  }
}
