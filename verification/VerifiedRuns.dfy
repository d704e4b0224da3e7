/**
 * Verified execution: vote counting over execution outputs, and the requester's loop that gathers
 * signed records from distinct executors until the policy can decide.
 */
module VerifiedRuns {
  import opened Common
  import opened Protocol

  datatype VerificationError = InsufficientExecutions | NoAgreement

  // ----- Votes -----

  ghost function Votes(outputs: seq<ContentId>, o: ContentId): nat {
    multiset(outputs)[o]
  }

  predicate WellFormedQuorum(executions: nat, requiredMatches: nat, outputs: seq<ContentId>) {
    0 < requiredMatches <= executions <= |outputs|
  }

  /** What a policy may accept; a quorum may have several answers, one for each iteration order. */
  ghost predicate Acceptable(policy: VerificationPolicy, outputs: seq<ContentId>, o: ContentId) {
    match policy
    case TrustExecutor => outputs != [] && o == outputs[0]
    case Replicate(count) =>
      && 0 < count <= |outputs| && o == outputs[0]
      && forall i | 0 <= i < count :: outputs[i] == outputs[0]
    case Quorum(executions, requiredMatches) =>
      && WellFormedQuorum(executions, requiredMatches, outputs)
      && Votes(outputs[..executions], o) >= requiredMatches
      && forall other :: Votes(outputs[..executions], other) <= Votes(outputs[..executions], o)
  }

  method CountVotes(outputs: seq<ContentId>) returns (counts: map<ContentId, nat>)
    ensures forall o :: o in counts <==> o in outputs
    ensures forall o | o in counts :: counts[o] == Votes(outputs, o)
  {
    counts := map[];
    for i := 0 to |outputs|
      invariant forall o :: o in counts <==> o in outputs[..i]
      invariant forall o | o in counts :: counts[o] == Votes(outputs[..i], o)
    {
      assert outputs[..i + 1] == outputs[..i] + [outputs[i]];
      counts := counts[outputs[i] := (if outputs[i] in counts then counts[outputs[i]] else 0) + 1];
    }
    assert outputs[..|outputs|] == outputs;
  }

  /** Scans the counted votes in some order for the largest that reaches the threshold. */
  method MostVoted(counts: map<ContentId, nat>, required: nat) returns (best: Option<ContentId>)
    ensures best.Some? ==> best.value in counts && counts[best.value] >= required
    ensures best.Some? ==> forall o | o in counts :: counts[o] <= counts[best.value]
    ensures best.None? ==> forall o | o in counts :: counts[o] < required
  {
    best := None;
    var rest := counts.Keys;
    while rest != {}
      invariant rest <= counts.Keys
      invariant best.Some? ==> best.value in counts && counts[best.value] >= required
      invariant best.Some? ==> forall o | o in counts && o !in rest :: counts[o] <= counts[best.value]
      invariant best.None? ==> forall o | o in counts && o !in rest :: counts[o] < required
      decreases rest
    {
      var o :| o in rest;
      rest := rest - {o};
      if counts[o] >= required && (best.None? || counts[o] >= counts[best.value]) {
        best := Some(o);
      }
    }
  }

  method VerifyOutputs(policy: VerificationPolicy, outputs: seq<ContentId>)
    returns (r: Result<ContentId, VerificationError>)
    ensures r.Ok? ==> Acceptable(policy, outputs, r.value)
    ensures r.Err? ==> forall o :: !Acceptable(policy, outputs, o)
  {
    match policy {
      case TrustExecutor =>
        return if outputs == [] then Err(InsufficientExecutions) else Ok(outputs[0]);
      case Replicate(count) =>
        if count == 0 || |outputs| < count {
          return Err(InsufficientExecutions);
        }
        var first := outputs[0];
        return if forall i | 0 <= i < count :: outputs[i] == first then Ok(first) else Err(NoAgreement);
      case Quorum(executions, requiredMatches) =>
        if executions == 0 || requiredMatches == 0 || requiredMatches > executions || |outputs| < executions {
          return Err(InsufficientExecutions);
        }
        var taken := outputs[..executions];
        var counts := CountVotes(taken);
        var best := MostVoted(counts, requiredMatches);
        if best.None? {
          assert forall o :: Votes(taken, o) < requiredMatches by {
            forall o
              ensures Votes(taken, o) < requiredMatches
            {
              if o !in taken { assert Votes(taken, o) == 0; }
            }
          }
          return Err(NoAgreement);
        }
        forall o
          ensures Votes(taken, o) <= Votes(taken, best.value)
        {
          if o !in taken { assert Votes(taken, o) == 0; }
        }
        return Ok(best.value);
    }
  }

  lemma {:induction false} TwoVotes(outputs: seq<ContentId>, a: ContentId, b: ContentId)
    requires a != b
    ensures Votes(outputs, a) + Votes(outputs, b) <= |outputs|
  {
    if outputs != [] {
      var n := |outputs| - 1;
      TwoVotes(outputs[..n], a, b);
      assert outputs == outputs[..n] + [outputs[n]];
    }
  }

  /** When the threshold is a strict majority, every iteration order accepts the same output. */
  lemma MajorityIsUnique(policy: VerificationPolicy, outputs: seq<ContentId>, a: ContentId, b: ContentId)
    requires policy.Quorum? ==> 2 * policy.requiredMatches > policy.executions
    requires Acceptable(policy, outputs, a) && Acceptable(policy, outputs, b)
    ensures a == b
  {
    if policy.Quorum? && a != b {
      TwoVotes(outputs[..policy.executions], a, b);
    }
  }

  function Repeat(o: ContentId, n: nat): (s: seq<ContentId>)
    ensures |s| == n
  {
    seq(n, _ => o)
  }

  lemma {:induction false} RepeatVotes(o: ContentId, n: nat, other: ContentId)
    ensures Votes(Repeat(o, n), other) == if other == o then n else 0
    decreases n
  {
    if n > 0 {
      RepeatVotes(o, n - 1, other);
      assert Repeat(o, n) == Repeat(o, n - 1) + [o];
    }
  }

  /** The majority condition is exact: any smaller threshold can accept two different outputs. */
  lemma MinorityIsAmbiguous(executions: byte, requiredMatches: byte, a: ContentId, b: ContentId, c: ContentId)
    returns (outputs: seq<ContentId>)
    requires 0 < requiredMatches && 2 * requiredMatches <= executions && a != b && a != c && b != c
    ensures Acceptable(Quorum(executions, requiredMatches), outputs, a)
    ensures Acceptable(Quorum(executions, requiredMatches), outputs, b)
  {
    var half := executions / 2;
    var odd := Repeat(c, executions % 2);
    outputs := Repeat(a, half) + Repeat(b, half) + odd;
    assert outputs[..executions] == outputs;
    forall o
      ensures Votes(outputs, o) == (if o == a then half else 0) + (if o == b then half else 0)
                                   + (if o == c then executions % 2 else 0)
    {
      RepeatVotes(a, half, o);
      RepeatVotes(b, half, o);
      RepeatVotes(c, executions % 2, o);
      assert multiset(outputs) == multiset(Repeat(a, half)) + multiset(Repeat(b, half)) + multiset(odd);
    }
  }

  // ----- One remote execution -----

  /** Content hashing, key derivation and signature checks, as abstract functions. */
  datatype Checks = Checks(
    h: Bytes -> ContentId,
    derive: Bytes -> NodeId,
    encode: ExecutionRecord -> Bytes,
    verify: (Bytes, Bytes, Bytes) -> bool)
  {
    predicate Signed(s: SignedExecutionRecord) {
      && derive(s.publicKey) == s.signer && s.record.executor == s.signer
      && verify(s.publicKey, encode(s.record), s.signature)
    }

    predicate Answers(task: Task, s: SignedExecutionRecord) {
      && Signed(s) && s.record.taskId == task.taskId
      && s.record.component == task.component && s.record.input == task.input
    }

    /** Some valid signature of the executor covers exactly this record, for exactly this task. */
    ghost predicate Attested(task: Task, record: ExecutionRecord) {
      exists s: SignedExecutionRecord :: s.record == record && Answers(task, s)
    }
  }

  datatype OfferReply = Accepted(taskId: string) | OfferOther

  datatype CommitReply = Returned(result: SignedExecutionRecord) | CommitOther

  datatype ContentReply = Returns(id: ContentId, bytes: Bytes) | ContentOther

  /** Whatever a peer answers to the two transfers, the offer, the commit and the content request. */
  datatype PeerReplies = PeerReplies(transferred: bool, offer: OfferReply, commit: CommitReply, content: ContentReply)

  datatype Execution = Execution(record: ExecutionRecord, bytes: Bytes)

  function RemoteExecute(c: Checks, task: Task, p: PeerReplies): Option<Execution> {
    if !p.transferred || p.offer != Accepted(task.taskId) then None
    else
      match p.commit
      case CommitOther => None
      case Returned(result) =>
        if !c.Answers(task, result) then None
        else
          match p.content
          case ContentOther => None
          case Returns(id, bytes) =>
            if id == result.record.output && c.h(bytes) == id then Some(Execution(result.record, bytes)) else None
  }

  /**
   * A peer's replies are used exactly when it took the content and the task, and returned a record of
   * that very task, signed by its executor's own key, and bytes that hash to the record's output.
   */
  lemma UsedExactly(c: Checks, task: Task, p: PeerReplies, e: Execution)
    ensures RemoteExecute(c, task, p) == Some(e) <==>
            && p.transferred && p.offer == Accepted(task.taskId) && p.commit.Returned?
            && var s := p.commit.result;
            && e.record == s.record && s.record.taskId == task.taskId
            && s.record.component == task.component && s.record.input == task.input
            && s.record.executor == s.signer == c.derive(s.publicKey)
            && c.verify(s.publicKey, c.encode(s.record), s.signature)
            && p.content == Returns(s.record.output, e.bytes) && c.h(e.bytes) == s.record.output
  {
  }

  // ----- The verified loop -----

  function Required(policy: VerificationPolicy): nat {
    match policy
    case TrustExecutor => 1
    case Replicate(count) => count
    case Quorum(executions, _) => executions
  }

  /** How many matching executions an acceptance stands on. */
  function Needed(policy: VerificationPolicy): nat {
    match policy
    case TrustExecutor => 1
    case Replicate(count) => count
    case Quorum(_, requiredMatches) => requiredMatches
  }

  function Outputs(results: seq<Execution>): (outputs: seq<ContentId>)
    ensures |outputs| == |results|
  {
    seq(|results|, i requires 0 <= i < |results| => results[i].record.output)
  }

  predicate DistinctExecutors(results: seq<Execution>) {
    forall i, j | 0 <= i < j < |results| :: results[i].record.executor != results[j].record.executor
  }

  ghost predicate Genuine(c: Checks, task: Task, e: Execution) {
    c.Attested(task, e.record) && c.h(e.bytes) == e.record.output
  }

  function Supporters(results: seq<Execution>, o: ContentId): set<NodeId> {
    set e | e in results && e.record.output == o :: e.record.executor
  }

  /** Distinct executors whose attested record names `o`: at least the number the policy needs. */
  ghost predicate Backed(c: Checks, task: Task, results: seq<Execution>, o: ContentId) {
    && DistinctExecutors(results) && (forall e | e in results :: Genuine(c, task, e))
    && |Supporters(results, o)| >= Needed(task.verification)
  }

  lemma {:induction false} VotesAreSupporters(results: seq<Execution>, o: ContentId)
    requires DistinctExecutors(results)
    ensures |Supporters(results, o)| == Votes(Outputs(results), o)
  {
    if results != [] {
      var n := |results| - 1;
      var front, last := results[..n], results[n];
      VotesAreSupporters(front, o);
      assert results == front + [last];
      assert Outputs(results) == Outputs(front) + [last.record.output];
      SupportersOfMore(front, last, o);
      NewSupporter(results, o);
      hide DistinctExecutors, Supporters, Outputs;
    }
  }

  lemma SupportersOfMore(results: seq<Execution>, e: Execution, o: ContentId)
    ensures Supporters(results + [e], o)
            == Supporters(results, o) + (if e.record.output == o then {e.record.executor} else {})
  {
    if e.record.output == o { assert e in results + [e]; }
  }

  lemma NewSupporter(results: seq<Execution>, o: ContentId)
    requires results != [] && DistinctExecutors(results)
    ensures var n := |results| - 1; results[n].record.executor !in Supporters(results[..n], o)
  {
  }

  lemma AcceptedVotes(policy: VerificationPolicy, outputs: seq<ContentId>, o: ContentId)
    requires Acceptable(policy, outputs, o)
    ensures Votes(outputs, o) >= Needed(policy) && o in outputs
  {
    match policy {
      case TrustExecutor => assert o in outputs;
      case Replicate(count) => EqualPrefixVotes(outputs, count);
      case Quorum(executions, _) =>
        assert outputs == outputs[..executions] + outputs[executions..];
        assert o in outputs[..executions];
    }
  }

  lemma EqualPrefixVotes(outputs: seq<ContentId>, n: nat)
    requires 0 < n <= |outputs| && forall i | 0 <= i < n :: outputs[i] == outputs[0]
    ensures Votes(outputs, outputs[0]) >= n
  {
    assert outputs == outputs[..n] + outputs[n..];
    assert outputs[..n] == Repeat(outputs[0], n);
    RepeatVotes(outputs[0], n, outputs[0]);
  }

  predicate KnowsExecutor(results: seq<Execution>, executor: NodeId) {
    exists i :: 0 <= i < |results| && results[i].record.executor == executor
  }

  /** The executions kept: peer after peer, the first answer of each executor, until there are enough. */
  function Collect(c: Checks, task: Task, peers: seq<PeerReplies>, kept: seq<Execution>, required: nat): seq<Execution>
    decreases |peers|
  {
    if peers == [] || |kept| >= required then kept
    else
      var answer := RemoteExecute(c, task, peers[0]);
      var isNew := answer.Some? && !KnowsExecutor(kept, answer.value.record.executor);
      var more := if isNew then kept + [answer.value] else kept;
      Collect(c, task, peers[1..], more, required)
  }

  /** Everyone whose answer can be used. */
  function Executors(c: Checks, task: Task, peers: seq<PeerReplies>): set<NodeId> {
    set p | p in peers && RemoteExecute(c, task, p).Some? :: RemoteExecute(c, task, p).value.record.executor
  }

  function ExecutorsOf(results: seq<Execution>): set<NodeId> {
    set e | e in results :: e.record.executor
  }

  /** Every answer of an executor that is not faulty has this output. */
  predicate HonestAnswers(c: Checks, task: Task, peers: seq<PeerReplies>, faulty: set<NodeId>, o: ContentId) {
    forall p | p in peers && RemoteExecute(c, task, p).Some? ::
      var record := RemoteExecute(c, task, p).value.record;
      record.executor in faulty || record.output == o
  }

  /** Enough executors answer, and few enough of them are faulty, by the numbers of the policy. */
  predicate Suffices(policy: VerificationPolicy, executors: nat, faulty: nat) {
    match policy
    case TrustExecutor => executors >= 1 && faulty == 0
    case Replicate(count) => 1 <= count <= executors && faulty == 0
    case Quorum(executions, requiredMatches) =>
      && 1 <= requiredMatches <= executions <= executors
      && faulty <= executions - requiredMatches && (faulty == 0 || executions < 2 * requiredMatches)
  }

  lemma {:induction false} CollectPrefix(
    c: Checks, task: Task, peers: seq<PeerReplies>, more: seq<PeerReplies>, kept: seq<Execution>, required: nat)
    ensures Collect(c, task, peers + more, kept, required)
         == Collect(c, task, more, Collect(c, task, peers, kept, required), required)
    decreases |peers|
  {
    if peers == [] {
      assert peers + more == more;
    } else if |kept| < required {
      assert (peers + more)[1..] == peers[1..] + more;
      var answer := RemoteExecute(c, task, peers[0]);
      var isNew := answer.Some? && !KnowsExecutor(kept, answer.value.record.executor);
      CollectPrefix(c, task, peers[1..], more, if isNew then kept + [answer.value] else kept, required);
      hide RemoteExecute, KnowsExecutor;
    }
  }

  /** What is kept: distinct executors, as many as there are up to the number required, honest unless faulty. */
  lemma {:induction false} CollectKeeps(
    c: Checks, task: Task, peers: seq<PeerReplies>, kept: seq<Execution>, required: nat, faulty: set<NodeId>,
    o: ContentId)
    requires DistinctExecutors(kept) && |kept| <= required && HonestAnswers(c, task, peers, faulty, o)
    requires forall e | e in kept :: e.record.executor in faulty || e.record.output == o
    ensures var results := Collect(c, task, peers, kept, required);
            var all := ExecutorsOf(kept) + Executors(c, task, peers);
            && DistinctExecutors(results) && |results| <= required
            && (|results| == required || ExecutorsOf(results) == all)
            && (forall e | e in results :: e.record.executor in faulty || e.record.output == o)
    decreases |peers|
  {
    if peers == [] {
      assert ExecutorsOf(kept) + {} == ExecutorsOf(kept);
    } else if |kept| < required {
      var answer := RemoteExecute(c, task, peers[0]);
      assert peers == [peers[0]] + peers[1..];
      var more := NextKept(c, task, peers, kept, faulty, o);
      hide RemoteExecute, Executors, ExecutorsOf, DistinctExecutors, HonestAnswers;
      CollectKeeps(c, task, peers[1..], more, required, faulty, o);
    }
  }

  lemma NextKept(
    c: Checks, task: Task, peers: seq<PeerReplies>, kept: seq<Execution>, faulty: set<NodeId>, o: ContentId)
    returns (more: seq<Execution>)
    requires peers != [] && DistinctExecutors(kept) && HonestAnswers(c, task, peers, faulty, o)
    requires forall e | e in kept :: e.record.executor in faulty || e.record.output == o
    ensures var answer := RemoteExecute(c, task, peers[0]);
            var isNew := answer.Some? && !KnowsExecutor(kept, answer.value.record.executor);
            more == if isNew then kept + [answer.value] else kept
    ensures DistinctExecutors(more) && |more| <= |kept| + 1 && HonestAnswers(c, task, peers[1..], faulty, o)
    ensures forall e | e in more :: e.record.executor in faulty || e.record.output == o
    ensures ExecutorsOf(more) + Executors(c, task, peers[1..]) == ExecutorsOf(kept) + Executors(c, task, peers)
  {
    hide RemoteExecute;
    var answer, rest := RemoteExecute(c, task, peers[0]), peers[1..];
    var isNew := answer.Some? && !KnowsExecutor(kept, answer.value.record.executor);
    more := if isNew then kept + [answer.value] else kept;
    assert peers == [peers[0]] + rest;
    if answer.Some? {
      assert peers[0] in peers;
      ExecutorsMore(c, task, peers);
      KnownExecutors(kept, answer.value.record.executor);
      if isNew {
        assert ExecutorsOf(more) == ExecutorsOf(kept) + {answer.value.record.executor} by {
          assert more[|kept|] == answer.value && forall e :: e in more <==> e in kept || e == answer.value;
        }
      }
    } else {
      assert Executors(c, task, peers) == Executors(c, task, rest);
    }
  }

  lemma ExecutorsMore(c: Checks, task: Task, peers: seq<PeerReplies>)
    requires peers != [] && RemoteExecute(c, task, peers[0]).Some?
    ensures Executors(c, task, peers)
         == {RemoteExecute(c, task, peers[0]).value.record.executor} + Executors(c, task, peers[1..])
  {
    hide RemoteExecute;
    assert peers[0] in peers && forall p :: p in peers <==> p == peers[0] || p in peers[1..];
  }

  lemma KnownExecutors(kept: seq<Execution>, executor: NodeId)
    ensures KnowsExecutor(kept, executor) <==> executor in ExecutorsOf(kept)
  {
    if KnowsExecutor(kept, executor) {
      var i :| 0 <= i < |kept| && kept[i].record.executor == executor;
      assert kept[i] in kept;
    }
  }

  lemma {:induction false} DistinctCount(results: seq<Execution>)
    requires DistinctExecutors(results)
    ensures |ExecutorsOf(results)| == |results|
    decreases |results|
  {
    if results != [] {
      var front, last := results[..|results| - 1], results[|results| - 1];
      DistinctCount(front);
      assert forall e :: e in results <==> e in front || e == last;
      assert ExecutorsOf(results) == ExecutorsOf(front) + {last.record.executor};
    }
  }

  /** With that many distinct executors kept, the honest output and no other is acceptable. */
  lemma HonestIsAcceptable(policy: VerificationPolicy, results: seq<Execution>, faulty: set<NodeId>, o: ContentId)
    requires DistinctExecutors(results) && |results| == Required(policy) && Suffices(policy, |results|, |faulty|)
    requires forall e | e in results :: e.record.executor in faulty || e.record.output == o
    ensures Acceptable(policy, Outputs(results), o) && forall x | Acceptable(policy, Outputs(results), x) :: x == o
  {
    var outputs := Outputs(results);
    if |faulty| == 0 {
      assert forall i | 0 <= i < |results| :: results[i] in results && outputs[i] == o;
      assert outputs == Repeat(o, |results|);
    }
    match policy {
      case TrustExecutor =>
      case Replicate(_) =>
      case Quorum(executions, requiredMatches) =>
        HonestVotes(results, faulty, o);
        assert outputs[..executions] == outputs;
        forall x | x != o ensures Votes(outputs, x) <= |faulty| && Votes(outputs, x) + Votes(outputs, o) <= executions {
          OtherVotes(results, faulty, o, x);
        }
    }
  }

  lemma HonestVotes(results: seq<Execution>, faulty: set<NodeId>, o: ContentId)
    requires DistinctExecutors(results)
    requires forall e | e in results :: e.record.executor in faulty || e.record.output == o
    ensures Votes(Outputs(results), o) >= |results| - |faulty|
  {
    VotesAreSupporters(results, o);
    DistinctCount(results);
    assert ExecutorsOf(results) <= Supporters(results, o) + faulty;
    SubsetSize(ExecutorsOf(results), Supporters(results, o) + faulty);
    assert |Supporters(results, o) + faulty| <= |Supporters(results, o)| + |faulty|;
    hide Supporters, ExecutorsOf, DistinctExecutors;
  }

  lemma OtherVotes(results: seq<Execution>, faulty: set<NodeId>, o: ContentId, x: ContentId)
    requires DistinctExecutors(results) && x != o
    requires forall e | e in results :: e.record.executor in faulty || e.record.output == o
    ensures Votes(Outputs(results), x) <= |faulty|
    ensures Votes(Outputs(results), x) + Votes(Outputs(results), o) <= |results|
  {
    VotesAreSupporters(results, x);
    VotesAreSupporters(results, o);
    DistinctCount(results);
    assert Supporters(results, x) <= faulty;
    SubsetSize(Supporters(results, x), faulty);
    SupportersApart(results, x, o);
    SubsetSize(Supporters(results, x) + Supporters(results, o), ExecutorsOf(results));
    hide Supporters, ExecutorsOf, DistinctExecutors;
  }

  lemma SupportersApart(results: seq<Execution>, x: ContentId, o: ContentId)
    requires DistinctExecutors(results) && x != o
    ensures Supporters(results, x) !! Supporters(results, o)
    ensures Supporters(results, x) + Supporters(results, o) <= ExecutorsOf(results)
  {
  }

  /**
   * When enough executors answer and few enough are faulty, by the policy's own numbers, the honest
   * output is the one acceptable output, whatever comes from the peers after them.
   */
  lemma HonestRunIsAccepted(
    c: Checks, task: Task, peers: seq<PeerReplies>, asked: nat, faulty: set<NodeId>, o: ContentId)
    requires Trustworthy(c, task, peers, asked, faulty, o)
    ensures var kept := Collect(c, task, peers, [], Required(task.verification));
            && |kept| == Required(task.verification) > 0 && Acceptable(task.verification, Outputs(kept), o)
            && forall x | Acceptable(task.verification, Outputs(kept), x) :: x == o
  {
    var first, required := peers[..asked], Required(task.verification);
    EnoughKept(c, task, first, faulty, o);
    CollectPrefix(c, task, first, peers[asked..], [], required);
    assert first + peers[asked..] == peers;
    var kept := Collect(c, task, first, [], required);
    hide HonestAnswers, Executors, DistinctExecutors, Suffices, Acceptable;
    HonestIsAcceptable(task.verification, kept, faulty, o);
  }

  /** The first `asked` peers are enough, and those of them that answer wrongly are among the faulty. */
  predicate Trustworthy(
    c: Checks, task: Task, peers: seq<PeerReplies>, asked: nat, faulty: set<NodeId>, o: ContentId)
  {
    && asked <= |peers| && HonestAnswers(c, task, peers[..asked], faulty, o)
    && Suffices(task.verification, |Executors(c, task, peers[..asked])|, |faulty|)
  }

  lemma EnoughKept(c: Checks, task: Task, peers: seq<PeerReplies>, faulty: set<NodeId>, o: ContentId)
    requires HonestAnswers(c, task, peers, faulty, o)
    requires Suffices(task.verification, |Executors(c, task, peers)|, |faulty|)
    ensures var kept := Collect(c, task, peers, [], Required(task.verification));
            && DistinctExecutors(kept) && |kept| == Required(task.verification) > 0
            && Suffices(task.verification, |kept|, |faulty|)
            && forall e | e in kept :: e.record.executor in faulty || e.record.output == o
  {
    var required := Required(task.verification);
    var kept := Collect(c, task, peers, [], required);
    CollectKeeps(c, task, peers, [], required, faulty, o);
    assert ExecutorsOf([]) + Executors(c, task, peers) == Executors(c, task, peers);
    hide HonestAnswers, Executors, DistinctExecutors, Collect, ExecutorsOf;
    DistinctCount(kept);
  }

  datatype Verified = Verified(accepted: Execution, executions: seq<Execution>)

  /**
   * Whatever the peers answer, an accepted run rests on enough attested records of distinct executors
   * with one output, and returns bytes that hash to that output. And when enough executors answer
   * first, few enough of them faulty, it returns the honest output.
   */
  method ExecuteVerified(c: Checks, task: Task, peers: seq<PeerReplies>) returns (r: Option<Verified>)
    ensures var kept := Collect(c, task, peers, [], Required(task.verification));
            && (r.Some? <==>
                Required(task.verification) > 0 && exists o :: Acceptable(task.verification, Outputs(kept), o))
            && (r.Some? ==> r.value.executions == kept)
    ensures r.Some? ==>
              && r.value.accepted in r.value.executions
              && Acceptable(task.verification, Outputs(r.value.executions), r.value.accepted.record.output)
              && Backed(c, task, r.value.executions, r.value.accepted.record.output)
              && |r.value.executions| <= Required(task.verification)
    ensures forall asked, faulty, o | Trustworthy(c, task, peers, asked, faulty, o) ::
              r.Some? && r.value.accepted.record.output == o
  {
    forall asked, faulty, o | Trustworthy(c, task, peers, asked, faulty, o)
      ensures var kept := Collect(c, task, peers, [], Required(task.verification));
              && |kept| == Required(task.verification) > 0 && Acceptable(task.verification, Outputs(kept), o)
              && forall x | Acceptable(task.verification, Outputs(kept), x) :: x == o
    {
      HonestRunIsAccepted(c, task, peers, asked, faulty, o);
    }
    hide Trustworthy, Collect;
    var required := Required(task.verification);
    if required == 0 {
      return None;
    }
    var results := Gather(c, task, peers, required);
    var verdict := VerifyOutputs(task.verification, Outputs(results));
    if verdict.Err? {
      return None;
    }
    AcceptedVotes(task.verification, Outputs(results), verdict.value);
    VotesAreSupporters(results, verdict.value);
    var i := FirstWith(results, verdict.value);
    return Some(Verified(results[i], results));
  }

  method FirstWith(results: seq<Execution>, o: ContentId) returns (i: nat)
    requires o in Outputs(results)
    ensures i < |results| && results[i].record.output == o
    ensures forall j | 0 <= j < i :: results[j].record.output != o
  {
    i := 0;
    while results[i].record.output != o
      invariant i < |results| && forall j | 0 <= j < i :: results[j].record.output != o
      decreases |results| - i
    {
      i := i + 1;
      assert i < |results| by { assert forall j | 0 <= j < i :: Outputs(results)[j] != o; }
    }
  }

  method Gather(c: Checks, task: Task, peers: seq<PeerReplies>, required: nat) returns (results: seq<Execution>)
    ensures results == Collect(c, task, peers, [], required)
    ensures DistinctExecutors(results) && |results| <= required
    ensures forall e | e in results :: Genuine(c, task, e)
  {
    results := [];
    var executors: set<NodeId> := {};
    for i := 0 to |peers|
      invariant DistinctExecutors(results) && |results| <= required
      invariant forall e | e in results :: Genuine(c, task, e)
      invariant forall x :: x in executors <==> KnowsExecutor(results, x)
      invariant Collect(c, task, peers[i..], results, required) == Collect(c, task, peers, [], required)
    {
      if |results| >= required {
        return;
      }
      assert peers[i..][1..] == peers[i + 1..];
      var answer := RemoteExecute(c, task, peers[i]);
      if answer.Some? && answer.value.record.executor !in executors {
        KeepAnswer(c, task, peers[i], results);
        executors := executors + {answer.value.record.executor};
        results := results + [answer.value];
      }
    }
  }

  lemma KeepAnswer(c: Checks, task: Task, p: PeerReplies, results: seq<Execution>)
    requires RemoteExecute(c, task, p).Some? && DistinctExecutors(results)
    requires !KnowsExecutor(results, RemoteExecute(c, task, p).value.record.executor)
    ensures var answer := RemoteExecute(c, task, p).value;
            && Genuine(c, task, answer) && DistinctExecutors(results + [answer])
            && forall x :: KnowsExecutor(results + [answer], x) <==>
               KnowsExecutor(results, x) || x == answer.record.executor
  {
    var answer := RemoteExecute(c, task, p).value;
    assert c.Answers(task, p.commit.result);
    var more := results + [answer];
    forall x
      ensures KnowsExecutor(more, x) <==> KnowsExecutor(results, x) || x == answer.record.executor
    {
      if KnowsExecutor(results, x) {
        var i :| 0 <= i < |results| && results[i].record.executor == x;
        assert more[i] == results[i];
      }
      assert more[|results|] == answer;
    }
  }

  /** With fewer faulty executors than the policy needs matches, what is accepted is the honest output. */
  lemma AcceptedIsHonest(
    c: Checks, task: Task, results: seq<Execution>, o: ContentId, faulty: set<NodeId>, honest: ContentId)
    requires Backed(c, task, results, o) && |faulty| < Needed(task.verification)
    requires forall e | e in results && e.record.executor !in faulty :: e.record.output == honest
    ensures o == honest
  {
    if o != honest {
      assert Supporters(results, o) <= faulty;
      SubsetSize(Supporters(results, o), faulty);
    }
  }
}
