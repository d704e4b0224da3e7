/**
 * Blocks, signatures and finality: plain quorums and the leader-gated Byzantine quorum with
 * `2f + 1` of at least `3f + 1` members.
 */
module Consensus {
  import opened Common
  import opened Protocol

  datatype Approval = Approval(signer: NodeId, publicKey: Bytes, signature: Bytes)

  /** The fields a signature covers. */
  datatype Proposal = Proposal(version: u16, previous: Option<Digest>, height: u64, timestamp: u64, eventsRoot: Digest)

  datatype Block = Block(proposal: Proposal, events: seq<SignedEvent>, networkId: string, approvals: seq<Approval>)

  /** A signer's key pair: its id is derived from its public key. */
  datatype Identity = Identity(publicKey: Bytes, secret: Bytes)

  /** Key derivation, signing and the text form of a proposal, as abstract functions. */
  datatype Scheme = Scheme(
    derive: Bytes -> NodeId,
    sign: (Bytes, Bytes) -> Bytes,
    verify: (Bytes, Bytes, Bytes) -> bool,
    encode: Proposal -> Bytes)
  {
    /** What an identity signs verifies under its public key. */
    ghost predicate Lawful(identities: seq<Identity>) {
      forall i, m: Bytes | i in identities :: verify(i.publicKey, m, sign(i.secret, m))
    }

    predicate Signs(a: Approval, message: Bytes) {
      derive(a.publicKey) == a.signer && verify(a.publicKey, message, a.signature)
    }
  }

  datatype QuorumRule = QuorumRule(networkId: string, members: set<NodeId>, quorum: nat)

  datatype Error = InvalidQuorum | NoQuorum | WrongLeader

  function NewQuorum(networkId: string, members: set<NodeId>, quorum: nat): Result<QuorumRule, Error> {
    if quorum == 0 || quorum > |members| then Err(InvalidQuorum) else Ok(QuorumRule(networkId, members, quorum))
  }

  /** A quorum rule exists exactly for a quorum between one and all members. */
  lemma NewQuorumAdmits(networkId: string, members: set<NodeId>, quorum: nat)
    ensures var q := NewQuorum(networkId, members, quorum);
            && (q.Ok? <==> 1 <= quorum <= |members|) && (q.Ok? ==> q.value == QuorumRule(networkId, members, quorum))
  {
  }

  // ----- Verification -----

  /** The members whose signature over the block's proposal is valid. */
  ghost function Signers(s: Scheme, members: set<NodeId>, block: Block): set<NodeId> {
    set a | a in block.approvals && a.signer in members && s.Signs(a, s.encode(block.proposal)) :: a.signer
  }

  ghost predicate Verified(s: Scheme, q: QuorumRule, block: Block) {
    block.networkId == q.networkId && |Signers(s, q.members, block)| >= q.quorum
  }

  method VerifyQuorum(s: Scheme, q: QuorumRule, block: Block) returns (valid: bool)
    ensures valid <==> Verified(s, q, block)
  {
    if block.networkId != q.networkId {
      return false;
    }
    var payload := s.encode(block.proposal);
    var signers: set<NodeId> := {};
    for i := 0 to |block.approvals|
      invariant signers == set a | a in block.approvals[..i] && a.signer in q.members && s.Signs(a, payload) :: a.signer
    {
      var a := block.approvals[i];
      assert block.approvals[..i + 1] == block.approvals[..i] + [a];
      if a.signer in q.members && s.derive(a.publicKey) == a.signer && s.verify(a.publicKey, payload, a.signature) {
        signers := signers + {a.signer};
      }
    }
    assert block.approvals[..|block.approvals|] == block.approvals;
    return |signers| >= q.quorum;
  }

  // ----- Finalization -----

  /** The distinct members among the approving identities. */
  function Approvers(s: Scheme, members: set<NodeId>, identities: seq<Identity>): set<NodeId> {
    set i | i in identities && s.derive(i.publicKey) in members :: s.derive(i.publicKey)
  }

  function SignerSet(approvals: seq<Approval>): set<NodeId> {
    set a | a in approvals :: a.signer
  }

  lemma OneMoreApprover(s: Scheme, members: set<NodeId>, identities: seq<Identity>, i: nat)
    requires i < |identities|
    ensures var id := s.derive(identities[i].publicKey);
            Approvers(s, members, identities[..i + 1])
            == Approvers(s, members, identities[..i]) + (if id in members then {id} else {})
  {
    assert identities[..i + 1] == identities[..i] + [identities[i]];
  }

  /** Collects one signature per distinct approving member and fails without a quorum. */
  method FinalizeQuorum(s: Scheme, q: QuorumRule, block: Block, identities: seq<Identity>)
    returns (finalized: Block, error: Option<Error>)
    requires s.Lawful(identities)
    ensures error == if |Approvers(s, q.members, identities)| >= q.quorum then None else Some(NoQuorum)
    ensures finalized.proposal == block.proposal && finalized.events == block.events
    ensures finalized.networkId == q.networkId
    ensures Signers(s, q.members, finalized) == Approvers(s, q.members, identities)
    ensures |finalized.approvals| == |Approvers(s, q.members, identities)|
    ensures forall a | a in finalized.approvals :: s.Signs(a, s.encode(block.proposal))
    ensures error.None? <==> Verified(s, q, finalized)
  {
    var approvals := CollectApprovals(s, q.members, s.encode(block.proposal), identities);
    finalized := Block(block.proposal, block.events, q.networkId, approvals);
    SignersOfCollected(s, q.members, finalized, identities);
    error := if |approvals| < q.quorum then Some(NoQuorum) else None;
  }

  /** One valid signature per distinct approving member. */
  ghost predicate Collected(
    s: Scheme, members: set<NodeId>, payload: Bytes, identities: seq<Identity>, approvals: seq<Approval>)
  {
    && SignerSet(approvals) == Approvers(s, members, identities)
    && |approvals| == |SignerSet(approvals)|
    && forall a | a in approvals :: s.Signs(a, payload)
  }

  method CollectApprovals(s: Scheme, members: set<NodeId>, payload: Bytes, identities: seq<Identity>)
    returns (approvals: seq<Approval>)
    requires s.Lawful(identities)
    ensures Collected(s, members, payload, identities, approvals)
  {
    approvals := [];
    var seen: set<NodeId> := {};
    for i := 0 to |identities|
      invariant Collected(s, members, payload, identities[..i], approvals) && seen == SignerSet(approvals)
    {
      hide *;
      CollectedStep(s, members, payload, identities, i, approvals);
      var identity := identities[i];
      var id := s.derive(identity.publicKey);
      if id in members && id !in seen {
        approvals := approvals + [Approval(id, identity.publicKey, s.sign(identity.secret, payload))];
        seen := seen + {id};
      }
    }
    assert identities[..|identities|] == identities;
  }

  lemma CollectedStep(
    s: Scheme, members: set<NodeId>, payload: Bytes, identities: seq<Identity>, i: nat, approvals: seq<Approval>)
    requires s.Lawful(identities) && i < |identities| && Collected(s, members, payload, identities[..i], approvals)
    ensures var identity := identities[i];
            var id := s.derive(identity.publicKey);
            if id in members && id !in SignerSet(approvals) then
              var more := approvals + [Approval(id, identity.publicKey, s.sign(identity.secret, payload))];
              && Collected(s, members, payload, identities[..i + 1], more)
              && SignerSet(more) == SignerSet(approvals) + {id}
            else Collected(s, members, payload, identities[..i + 1], approvals)
  {
    hide Approvers, SignerSet, Scheme.Lawful, Scheme.Signs;
    var identity := identities[i];
    var a := Approval(s.derive(identity.publicKey), identity.publicKey, s.sign(identity.secret, payload));
    OneMoreApprover(s, members, identities, i);
    OneMoreSigner(approvals, a);
    OwnSignature(s, identities, i, payload);
    AllSignMore(s, approvals, a, payload);
  }

  lemma OwnSignature(s: Scheme, identities: seq<Identity>, i: nat, payload: Bytes)
    requires s.Lawful(identities) && i < |identities|
    ensures var identity := identities[i];
            var signature := s.sign(identity.secret, payload);
            s.Signs(Approval(s.derive(identity.publicKey), identity.publicKey, signature), payload)
  {
  }

  lemma AllSignMore(s: Scheme, approvals: seq<Approval>, a: Approval, payload: Bytes)
    requires s.Signs(a, payload) && forall b | b in approvals :: s.Signs(b, payload)
    ensures forall b | b in approvals + [a] :: s.Signs(b, payload)
  {
    hide *;
  }

  lemma OneMoreSigner(approvals: seq<Approval>, a: Approval)
    ensures SignerSet(approvals + [a]) == SignerSet(approvals) + {a.signer}
  {
  }

  lemma SignersOfCollected(s: Scheme, members: set<NodeId>, block: Block, identities: seq<Identity>)
    requires SignerSet(block.approvals) == Approvers(s, members, identities)
    requires forall a | a in block.approvals :: s.Signs(a, s.encode(block.proposal))
    ensures Signers(s, members, block) == Approvers(s, members, identities)
  {
    forall a | a in block.approvals
      ensures a.signer in members
    {
      assert a.signer in SignerSet(block.approvals);
    }
    assert Signers(s, members, block) == SignerSet(block.approvals);
  }

  // ----- Byzantine quorums -----

  datatype Bft = Bft(inner: QuorumRule, ordered: seq<NodeId>, maxFaults: u64)

  /** `ordered` lists the members without repetition (the source sorts them). */
  predicate Enumerates(ordered: seq<NodeId>, members: set<NodeId>) {
    |ordered| == |members| && (set m | m in ordered) == members
  }

  function NewBft(networkId: string, members: set<NodeId>, ordered: seq<NodeId>, maxFaults: u64): Result<Bft, Error> {
    if |members| < SaturatingAdd(SaturatingMul(maxFaults, 3), 1) then Err(InvalidQuorum)
    else
      match NewQuorum(networkId, members, SaturatingAdd(SaturatingMul(maxFaults, 2), 1))
      case Err(error) => Err(error)
      case Ok(inner) => Ok(Bft(inner, ordered, maxFaults))
  }

  ghost predicate ValidBft(b: Bft) {
    && Enumerates(b.ordered, b.inner.members)
    && |b.inner.members| >= 3 * b.maxFaults + 1
    && b.inner.quorum == 2 * b.maxFaults + 1
  }

  /** Construction admits exactly `n >= 3f + 1`, saturation included, for sets a machine can hold. */
  lemma NewBftAdmits(networkId: string, members: set<NodeId>, ordered: seq<NodeId>, maxFaults: u64)
    requires Enumerates(ordered, members) && |members| < U64_MAX
    ensures var b := NewBft(networkId, members, ordered, maxFaults);
            && (b.Ok? <==> |members| >= 3 * maxFaults + 1)
            && (b.Ok? ==> ValidBft(b.value) && b.value.inner.networkId == networkId && b.value.inner.members == members)
  {
  }

  function Leader(b: Bft, height: u64): NodeId
    requires b.ordered != []
  {
    b.ordered[height % |b.ordered|]
  }

  /** A list as long as its set of elements repeats nothing. */
  lemma {:induction false} EnumerationIsDistinct(ids: seq<NodeId>)
    ensures |set m | m in ids| <= |ids|
    ensures |set m | m in ids| == |ids| ==> forall i, j | 0 <= i < j < |ids| :: ids[i] != ids[j]
    decreases |ids|
  {
    if ids != [] {
      var n := |ids| - 1;
      var front, last := ids[..n], ids[n];
      EnumerationIsDistinct(front);
      assert (set m | m in ids) == (set m | m in front) + {last} by { assert ids == front + [last]; }
      if last in front {
        assert (set m | m in ids) == (set m | m in front);
      }
      forall i, j | 0 <= i < j < |ids| && |set m | m in ids| == |ids| ensures ids[i] != ids[j] {
        assert i < n && ids[i] == front[i];
      }
    }
  }

  /** Multiples of `n` within less than `n` of each other are one. */
  lemma OneMultiple(p: nat, q: nat, n: nat, k: int, l: int)
    requires p * n + k == q * n + l && k - l < n && l - k < n
    ensures p == q && k == l
  {
    assert (p + 1) * n == p * n + n && (q + 1) * n == q * n + n;
    if p < q { MulMonotone(p + 1, q, n); }
    if q < p { MulMonotone(q + 1, p, n); }
  }

  lemma ModOf(q: nat, n: nat, k: nat)
    requires k < n
    ensures (q * n + k) % n == k
  {
    MulNonNegative(q, n);
    var x := q * n + k;
    OneMultiple(x / n, q, n, x % n, k);
  }

  /** The member at a position leads exactly the heights that leave that remainder. */
  lemma LeadsExactly(b: Bft, height: u64, k: nat)
    requires ValidBft(b) && k < |b.ordered|
    ensures Leader(b, height) == b.ordered[k] <==> height % |b.ordered| == k
  {
    EnumerationIsDistinct(b.ordered);
  }

  /** Two heights have one leader exactly when they are congruent modulo the number of members. */
  lemma SameLeaderExactly(b: Bft, x: u64, y: u64)
    requires ValidBft(b)
    ensures Leader(b, x) == Leader(b, y) <==> x % |b.inner.members| == y % |b.inner.members|
  {
    LeadsExactly(b, x, y % |b.ordered|);
    assert Leader(b, y) == b.ordered[y % |b.ordered|];
  }

  /** Every member leads exactly one of any as many consecutive heights as there are members. */
  lemma EveryMemberLeadsOnce(b: Bft, first: u64, member: NodeId) returns (height: u64)
    requires ValidBft(b) && member in b.inner.members && first + |b.inner.members| - 1 <= U64_MAX
    ensures first <= height < first + |b.inner.members| && Leader(b, height) == member
    ensures forall other: u64 | first <= other < first + |b.inner.members| && Leader(b, other) == member ::
              other == height
  {
    var n := |b.ordered|;
    assert member in (set m | m in b.ordered);
    var k :| 0 <= k < n && b.ordered[k] == member;
    height := HeightWithRemainder(first, n, k);
    LeadsExactly(b, height, k);
    forall other: u64 | first <= other < first + n && Leader(b, other) == member ensures other == height {
      LeadsExactly(b, other, k);
      OnlyOneWithRemainder(first, n, k, height, other);
    }
  }

  lemma HeightWithRemainder(first: nat, n: nat, k: nat) returns (height: nat)
    requires k < n
    ensures first <= height < first + n && height % n == k
  {
    var q, r := first / n, first % n;
    assert first == q * n + r;
    if k >= r {
      height := q * n + k;
      ModOf(q, n, k);
    } else {
      height := (q + 1) * n + k;
      assert (q + 1) * n == q * n + n;
      ModOf(q + 1, n, k);
    }
  }

  lemma Quotient(x: nat, n: nat) returns (q: nat)
    requires n > 0
    ensures x == q * n + x % n
  {
    q := x / n;
  }

  lemma OnlyOneWithRemainder(first: nat, n: nat, k: nat, x: nat, y: nat)
    requires k < n && first <= x < first + n && first <= y < first + n && x % n == k == y % n
    ensures x == y
  {
    var p := Quotient(x, n);
    var q := Quotient(y, n);
    OneMultiple(p, q, n, k, k + x - y);
  }

  /** Verification looks for the leader's entry by name only. */
  ghost predicate BftVerified(s: Scheme, b: Bft, block: Block)
    requires ValidBft(b)
  {
    Leader(b, block.proposal.height) in SignerSet(block.approvals) && Verified(s, b.inner, block)
  }

  method VerifyBft(s: Scheme, b: Bft, block: Block) returns (valid: bool)
    requires ValidBft(b)
    ensures valid <==> BftVerified(s, b, block)
  {
    var leader, named := Leader(b, block.proposal.height), false;
    for i := 0 to |block.approvals|
      invariant named <==> leader in SignerSet(block.approvals[..i])
    {
      assert block.approvals[..i + 1] == block.approvals[..i] + [block.approvals[i]];
      named := named || block.approvals[i].signer == leader;
    }
    assert block.approvals[..|block.approvals|] == block.approvals;
    valid := VerifyQuorum(s, b.inner, block);
    valid := named && valid;
  }

  /** A finalized block always verifies, and its leader really signed it. */
  method FinalizeBft(s: Scheme, b: Bft, block: Block, identities: seq<Identity>)
    returns (finalized: Block, error: Option<Error>)
    requires ValidBft(b) && s.Lawful(identities)
    ensures var approvers := Approvers(s, b.inner.members, identities);
            error == if Leader(b, block.proposal.height) !in approvers then Some(WrongLeader)
                     else if |approvers| < 2 * b.maxFaults + 1 then Some(NoQuorum) else None
    ensures error.None? ==>
              && BftVerified(s, b, finalized) && finalized.proposal == block.proposal
              && finalized.events == block.events
              && Leader(b, block.proposal.height) in Signers(s, b.inner.members, finalized)
    ensures error == Some(WrongLeader) ==> finalized == block
  {
    var leader := Leader(b, block.proposal.height);
    assert leader in (set m | m in b.ordered);
    if !exists i | 0 <= i < |identities| :: s.derive(identities[i].publicKey) == leader {
      return block, Some(WrongLeader);
    }
    finalized, error := FinalizeQuorum(s, b.inner, block, identities);
  }

  // ----- Safety -----

  /** Two quorums of one membership overlap. */
  lemma QuorumsOverlap(members: set<NodeId>, a: set<NodeId>, b: set<NodeId>)
    requires a <= members && b <= members
    ensures |a * b| >= |a| + |b| - |members|
  {
    assert |a + b| == |a| + |b| - |a * b|;
    SubsetSize(a + b, members);
  }

  /** Any two verified blocks share at least `4f + 2 - n` validly signing members. */
  lemma VerifiedBlocksShareSigners(s: Scheme, b: Bft, x: Block, y: Block)
    requires ValidBft(b) && BftVerified(s, b, x) && BftVerified(s, b, y)
    ensures |Signers(s, b.inner.members, x) * Signers(s, b.inner.members, y)|
            >= 4 * b.maxFaults + 2 - |b.inner.members|
  {
    QuorumsOverlap(b.inner.members, Signers(s, b.inner.members, x), Signers(s, b.inner.members, y));
  }

  /** A history of signed proposals, and the members that signed two at one height. */
  type History = set<(NodeId, Proposal)>

  ghost predicate Equivocates(history: History, m: NodeId) {
    exists p: Proposal, q: Proposal :: p != q && p.height == q.height && (m, p) in history && (m, q) in history
  }

  ghost function Equivocators(history: History, members: set<NodeId>): set<NodeId> {
    set m | m in members && Equivocates(history, m)
  }

  /** Signatures are not forged: whoever validly signed a block is on record as having signed it. */
  ghost predicate OnRecord(s: Scheme, history: History, members: set<NodeId>, block: Block) {
    forall m | m in Signers(s, members, block) :: (m, block.proposal) in history
  }

  /** Verified blocks that diverge at one height cost at least `4f + 2 - n` equivocators. */
  lemma DivergenceNeedsEquivocators(s: Scheme, b: Bft, history: History, x: Block, y: Block)
    requires ValidBft(b) && BftVerified(s, b, x) && BftVerified(s, b, y)
    requires OnRecord(s, history, b.inner.members, x) && OnRecord(s, history, b.inner.members, y)
    requires x.proposal.height == y.proposal.height && x.proposal != y.proposal
    ensures |Equivocators(history, b.inner.members)| >= 4 * b.maxFaults + 2 - |b.inner.members|
  {
    var shared := Signers(s, b.inner.members, x) * Signers(s, b.inner.members, y);
    VerifiedBlocksShareSigners(s, b, x, y);
    forall m | m in shared
      ensures m in Equivocators(history, b.inner.members)
    {
      assert (m, x.proposal) in history && (m, y.proposal) in history;
    }
    SubsetSize(shared, Equivocators(history, b.inner.members));
  }

  /** With exactly `3f + 1` members and at most `f` equivocators, a height has one proposal. */
  lemma Agreement(s: Scheme, b: Bft, history: History, x: Block, y: Block)
    requires ValidBft(b) && |b.inner.members| == 3 * b.maxFaults + 1
    requires BftVerified(s, b, x) && BftVerified(s, b, y)
    requires OnRecord(s, history, b.inner.members, x) && OnRecord(s, history, b.inner.members, y)
    requires |Equivocators(history, b.inner.members)| <= b.maxFaults
    requires x.proposal.height == y.proposal.height
    ensures s.encode(x.proposal) == s.encode(y.proposal)
    ensures x.proposal == y.proposal
  {
    if x.proposal != y.proposal {
      DivergenceNeedsEquivocators(s, b, history, x, y);
    }
  }

  // ----- The member count is exact: with any more members, agreement fails -----

  function Ids(s: Scheme, identities: seq<Identity>): (ids: seq<NodeId>)
    ensures |ids| == |identities|
  {
    seq(|identities|, i requires 0 <= i < |identities| => s.derive(identities[i].publicKey))
  }

  predicate Distinct(ids: seq<NodeId>) {
    forall i, j | 0 <= i < j < |ids| :: ids[i] != ids[j]
  }

  function Elements(ids: seq<NodeId>): set<NodeId> {
    set m | m in ids
  }

  lemma {:induction false} ElementsSize(ids: seq<NodeId>)
    ensures |Elements(ids)| <= |ids|
    ensures Distinct(ids) ==> |Elements(ids)| == |ids|
  {
    if ids != [] {
      var n := |ids| - 1;
      ElementsSize(ids[..n]);
      assert ids == ids[..n] + [ids[n]];
      assert Elements(ids) == Elements(ids[..n]) + {ids[n]};
    }
  }

  function Signatures(s: Scheme, identities: seq<Identity>, payload: Bytes): (approvals: seq<Approval>)
    ensures |approvals| == |identities|
  {
    seq(|identities|, i requires 0 <= i < |identities| =>
      Approval(s.derive(identities[i].publicKey), identities[i].publicKey, s.sign(identities[i].secret, payload)))
  }

  /** A block signed by `identities`, with the leader present in name only. */
  function NamedBlock(
    s: Scheme, networkId: string, p: Proposal, identities: seq<Identity>, leader: NodeId, wrongKey: Bytes)
    : Block
  {
    Block(p, [], networkId, Signatures(s, identities, s.encode(p)) + [Approval(leader, wrongKey, [])])
  }

  lemma NamedBlockSigners(s: Scheme, members: set<NodeId>, networkId: string, p: Proposal, identities: seq<Identity>,
                          leader: NodeId, wrongKey: Bytes)
    requires s.Lawful(identities) && s.derive(wrongKey) != leader
    requires Elements(Ids(s, identities)) <= members
    ensures var block := NamedBlock(s, networkId, p, identities, leader, wrongKey);
            Signers(s, members, block) == Elements(Ids(s, identities)) && leader in SignerSet(block.approvals)
  {
    var block := NamedBlock(s, networkId, p, identities, leader, wrongKey);
    var signed := Signatures(s, identities, s.encode(p));
    assert block.approvals[|signed|] == Approval(leader, wrongKey, []);
    forall i | 0 <= i < |identities|
      ensures signed[i] in block.approvals && s.Signs(signed[i], s.encode(p))
              && signed[i].signer == Ids(s, identities)[i]
    {
      assert block.approvals[i] == signed[i];
    }
    forall m | m in Elements(Ids(s, identities))
      ensures m in Signers(s, members, block)
    {
      var i :| 0 <= i < |identities| && Ids(s, identities)[i] == m;
      assert signed[i] in block.approvals;
    }
    forall m | m in Signers(s, members, block)
      ensures m in Elements(Ids(s, identities))
    {
      var a :| a in block.approvals && a.signer == m && s.Signs(a, s.encode(p));
      var k :| 0 <= k < |block.approvals| && block.approvals[k] == a;
      assert k < |signed|;
      assert Ids(s, identities)[k] == m;
    }
  }

  ghost function TwoSided(a: set<NodeId>, p: Proposal, b: set<NodeId>, q: Proposal): History {
    (set m | m in a :: (m, p)) + (set m | m in b :: (m, q))
  }

  lemma TwoSidedEquivocators(a: set<NodeId>, p: Proposal, b: set<NodeId>, q: Proposal, members: set<NodeId>)
    ensures Equivocators(TwoSided(a, p, b, q), members) <= a * b
  {
    var history := TwoSided(a, p, b, q);
    forall m | m in Equivocators(history, members)
      ensures m in a * b
    {
      var u: Proposal, v: Proposal :| u != v && u.height == v.height && (m, u) in history && (m, v) in history;
    }
  }

  lemma SameIndex(ids: seq<NodeId>, i: nat, j: nat)
    requires Distinct(ids) && i < |ids| && j < |ids| && ids[i] == ids[j]
    ensures i == j
  {
  }

  /** An element of both ends of a list without repetition lies in their common middle. */
  lemma InBothEnds(ids: seq<NodeId>, k: nat, m: NodeId)
    requires k <= |ids| && Distinct(ids) && m in ids[..k] && m in ids[|ids| - k..]
    ensures |ids| < 2 * k && m in ids[|ids| - k..k]
  {
    hide Distinct;
    var n := |ids|;
    var i :| 0 <= i < k && ids[..k][i] == m;
    var j :| 0 <= j < k && ids[n - k..][j] == m;
    SameIndex(ids, i, n - k + j);
    assert ids[n - k..k][i - (n - k)] == m;
  }

  lemma EndsOverlap(ids: seq<NodeId>, k: nat)
    requires k <= |ids| && Distinct(ids)
    ensures |Elements(ids[..k]) * Elements(ids[|ids| - k..])| <= if |ids| < 2 * k then 2 * k - |ids| else 0
  {
    var shared := Elements(ids[..k]) * Elements(ids[|ids| - k..]);
    forall m | m in shared
      ensures |ids| < 2 * k && m in ids[|ids| - k..k]
    {
      InBothEnds(ids, k, m);
    }
    if |ids| < 2 * k {
      SubsetSize(shared, Elements(ids[|ids| - k..k]));
      ElementsSize(ids[|ids| - k..k]);
    } else {
      assert shared == {};
    }
  }

  /**
   * For every lawful scheme, every `f`, and every membership larger than `3f + 1` that construction
   * admits, two different proposals of one height verify although at most `f` members equivocate.
   */
  lemma ExtraMembersBreakAgreement(
    s: Scheme, networkId: string, identities: seq<Identity>, f: u64, p: Proposal, q: Proposal)
    returns (b: Bft, history: History, x: Block, y: Block)
    requires s.Lawful(identities) && Distinct(Ids(s, identities))
    requires 3 * f + 1 < |identities| < U64_MAX && p.height == q.height && p != q
    ensures ValidBft(b) && b.maxFaults == f && b.inner.members == Elements(Ids(s, identities))
    ensures BftVerified(s, b, x) && BftVerified(s, b, y) && x.proposal == p && y.proposal == q
    ensures OnRecord(s, history, b.inner.members, x) && OnRecord(s, history, b.inner.members, y)
    ensures |Equivocators(history, b.inner.members)| <= f
  {
    b, x, y := SplitQuorums(s, networkId, identities, f, p, q);
    history := SplitHistory(s, Ids(s, identities), b.inner.members, f, x, y);
  }

  lemma SplitHistory(s: Scheme, ids: seq<NodeId>, members: set<NodeId>, f: nat, x: Block, y: Block)
    returns (history: History)
    requires 3 * f + 1 < |ids| && Distinct(ids)
    requires Signers(s, members, x) == Elements(ids[..2 * f + 1])
    requires Signers(s, members, y) == Elements(ids[|ids| - (2 * f + 1)..])
    ensures OnRecord(s, history, members, x) && OnRecord(s, history, members, y)
    ensures |Equivocators(history, members)| <= f
  {
    history := TwoSided(Signers(s, members, x), x.proposal, Signers(s, members, y), y.proposal);
    SidesOnRecord(s, x, y, members);
    FewEquivocators(ids, f, 2 * f + 1, x.proposal, y.proposal, members);
  }

  /** One quorum at each end of the member list. */
  lemma SplitQuorums(s: Scheme, networkId: string, identities: seq<Identity>, f: u64, p: Proposal, q: Proposal)
    returns (b: Bft, x: Block, y: Block)
    requires s.Lawful(identities) && Distinct(Ids(s, identities)) && 3 * f + 1 < |identities|
    ensures ValidBft(b) && b.maxFaults == f && b.inner.members == Elements(Ids(s, identities))
    ensures BftVerified(s, b, x) && BftVerified(s, b, y) && x.proposal == p && y.proposal == q
    ensures Signers(s, b.inner.members, x) == Elements(Ids(s, identities)[..2 * f + 1])
    ensures Signers(s, b.inner.members, y) == Elements(Ids(s, identities)[|identities| - (2 * f + 1)..])
  {
    var quorum, ids := 2 * f + 1, Ids(s, identities);
    ElementsSize(ids);
    b := Bft(QuorumRule(networkId, Elements(ids), quorum), ids, f);
    assert ValidBft(b);
    EndIds(s, identities, quorum);
    hide *;
    x := SplitBlock(s, b, networkId, p, identities[..quorum], identities);
    y := SplitBlock(s, b, networkId, q, identities[|identities| - quorum..], identities);
  }

  lemma SidesOnRecord(s: Scheme, x: Block, y: Block, members: set<NodeId>)
    ensures var history := TwoSided(Signers(s, members, x), x.proposal, Signers(s, members, y), y.proposal);
            OnRecord(s, history, members, x) && OnRecord(s, history, members, y)
  {
  }

  lemma FewEquivocators(ids: seq<NodeId>, f: nat, k: nat, p: Proposal, q: Proposal, members: set<NodeId>)
    requires k == 2 * f + 1 && 3 * f + 1 < |ids| && Distinct(ids)
    ensures |Equivocators(TwoSided(Elements(ids[..k]), p, Elements(ids[|ids| - k..]), q), members)| <= f
  {
    var a, b := Elements(ids[..k]), Elements(ids[|ids| - k..]);
    hide *;
    EndsOverlap(ids, k);
    TwoSidedEquivocators(a, p, b, q, members);
    SubsetSize(Equivocators(TwoSided(a, p, b, q), members), a * b);
  }

  /** A verified block whose valid signers are exactly a given quorum of the members. */
  lemma SplitBlock(s: Scheme, b: Bft, networkId: string, p: Proposal, signing: seq<Identity>, identities: seq<Identity>)
    returns (x: Block)
    requires ValidBft(b) && b.ordered == Ids(s, identities) && b.inner.networkId == networkId
    requires s.Lawful(identities) && Distinct(Ids(s, identities)) && |identities| > 1
    requires forall i | i in signing :: i in identities
    requires |signing| == b.inner.quorum && Distinct(Ids(s, signing))
    ensures x.proposal == p && BftVerified(s, b, x) && Signers(s, b.inner.members, x) == Elements(Ids(s, signing))
  {
    var n, at := |identities|, p.height % |identities|;
    var leader := Leader(b, p.height);
    var other := if at == 0 then 1 else 0;
    var wrongKey := identities[other].publicKey;
    assert Ids(s, identities)[other] != Ids(s, identities)[at];
    ElementsSize(Ids(s, signing));
    forall i | 0 <= i < |signing|
      ensures Ids(s, signing)[i] in b.inner.members
    {
      assert signing[i] in identities;
      var k :| 0 <= k < n && identities[k] == signing[i];
      assert Ids(s, identities)[k] in (set m | m in b.ordered);
    }
    NamedBlockSigners(s, b.inner.members, networkId, p, signing, leader, wrongKey);
    x := NamedBlock(s, networkId, p, signing, leader, wrongKey);
  }

  lemma EndIds(s: Scheme, identities: seq<Identity>, quorum: nat)
    requires quorum <= |identities| && Distinct(Ids(s, identities))
    ensures var first, last := identities[..quorum], identities[|identities| - quorum..];
            && Ids(s, first) == Ids(s, identities)[..quorum] && Distinct(Ids(s, first))
            && Ids(s, last) == Ids(s, identities)[|identities| - quorum..] && Distinct(Ids(s, last))
  {
  }
}
