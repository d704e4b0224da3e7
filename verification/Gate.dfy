/**
 * Who may ask what of a node: invitations and certificates, the revoked set kept while blocks are
 * appended, and what a restart rebuilds from the block files, the stored invitation and the stored
 * certificates, whichever writes have failed before.
 */
module Gate {
  import opened Common
  import opened Protocol
  import opened Revocation
  import K = Consensus
  import L = Chain

  const MAX_ISSUED_MEMBERSHIPS: nat := 4_096
  const LOCAL_NETWORK := "local"

  // ----- Certificates -----

  datatype Membership = Membership(
    networkId: string, member: NodeId, issuer: NodeId, permissions: set<string>, expiresAt: Option<u64>,
    publicKey: Bytes, signature: Bytes)

  datatype Invitation = Invitation(version: u16, membership: Membership, issuedAt: u64)

  /** The node itself; `authentic` is the issuer's key and signature check. */
  datatype Node = Node(self: NodeId, authentic: Membership -> bool, codec: L.Codec)

  predicate Unexpired(m: Membership, at: u64) {
    m.expiresAt.None? || m.expiresAt.value > at
  }

  predicate Verifies(n: Node, m: Membership, trusted: set<NodeId>, at: u64) {
    m.issuer in trusted && n.authentic(m) && Unexpired(m, at)
  }

  predicate VerifiesFor(n: Node, inv: Invitation, at: u64) {
    && inv.version == 1 && inv.issuedAt <= at && inv.membership.member == n.self
    && Verifies(n, inv.membership, {inv.membership.issuer}, at)
  }

  // ----- Permissions -----

  datatype Access = Access(permissions: set<string>, expiresAt: Option<u64>)

  datatype Policy = Policy(networkId: string, permissions: map<NodeId, Access>)

  predicate Allows(a: Access, permission: string, at: u64) {
    (a.expiresAt.None? || a.expiresAt.value > at) && ("*" in a.permissions || permission in a.permissions)
  }

  function AccessOf(m: Membership): Access {
    Access(m.permissions, m.expiresAt)
  }

  function IssuerAccess(m: Membership): Access {
    Access({"*"}, m.expiresAt)
  }

  /** The certificates issued here and the installed invitation, as their files hold them. */
  datatype Kept = Kept(issued: seq<Membership>, invitation: Option<Invitation>)

  /**
   * The chain with the block files that failed appends left, and the two membership files; then what
   * is only in memory. A node whose start-up failed is not `up`.
   */
  datatype State = State(
    up: bool, ledger: L.Files, kept: Kept, issued: seq<Membership>, revoked: set<NodeId>, policy: Option<Policy>)

  const FRESH := State(true, L.Files([], []), Kept([], None), [], {}, None)

  function EventsOf(blocks: seq<K.Block>): seq<SignedEvent> {
    if blocks == [] then [] else EventsOf(blocks[..|blocks| - 1]) + blocks[|blocks| - 1].events
  }

  function EntryOf(policy: Option<Policy>, member: NodeId): Option<Access> {
    if policy.Some? && member in policy.value.permissions then Some(policy.value.permissions[member]) else None
  }

  /** The gate every request passes; a node without a policy has no gate. */
  predicate Authorized(s: State, signer: NodeId, permission: string, at: u64) {
    && s.up
    && (s.policy.Some? ==>
          signer in s.policy.value.permissions && Allows(s.policy.value.permissions[signer], permission, at))
  }

  function Without(policy: Option<Policy>, revoked: set<NodeId>): Option<Policy> {
    match policy
    case None => None
    case Some(p) => Some(p.(permissions := map m | m in p.permissions && m !in revoked :: p.permissions[m]))
  }

  /** Applying changes: the revoked set follows them, and revoked members lose their access. */
  function ApplyChanges(s: State, changes: seq<Change>): State {
    var revoked := Apply(s.revoked, changes);
    s.(revoked := revoked, policy := Without(s.policy, revoked))
  }

  /** A block the ledger admits: it follows the chain, its size is bounded, and engine and events verify. */
  predicate Admitted(n: Node, s: State, b: K.Block, verified: bool) {
    verified && n.codec.Follows(s.ledger.blocks, b) && |n.codec.pretty(b)| <= L.MAX_BLOCK_BYTES
  }

  /** Its append succeeds. */
  predicate Lands(n: Node, s: State, b: K.Block, disk: L.Disk) {
    disk == L.Written && !L.NameTaken(n.codec, s.ledger, b)
  }

  /** Appending a block of some network: its changes are applied only when the append succeeds. */
  function AppendBlock(n: Node, s: State, b: K.Block, verified: bool, disk: L.Disk): State {
    if !Admitted(n, s, b, verified) then s
    else
      var t := s.(ledger := L.TryAppend(n.codec, s.ledger, b, disk));
      if Lands(n, s, b, disk) then ApplyChanges(t, ChangesOf(b.events)) else t
  }

  /** The node's own task record, as a block of the network "local". */
  predicate OwnRecord(b: K.Block) {
    b.networkId == LOCAL_NETWORK && |b.events| == 1 && b.events[0].event.TaskCompleted?
  }

  function AppendRecord(n: Node, s: State, b: K.Block, verified: bool, disk: L.Disk): State {
    if !OwnRecord(b) || !Admitted(n, s, b, verified) then s else s.(ledger := L.TryAppend(n.codec, s.ledger, b, disk))
  }

  // ----- Issuing -----

  function PutMembership(issued: seq<Membership>, m: Membership): seq<Membership> {
    if issued == [] then [m]
    else if issued[0].member == m.member then [m] + issued[1..]
    else [issued[0]] + PutMembership(issued[1..], m)
  }

  predicate Knows(issued: seq<Membership>, member: NodeId) {
    exists i :: 0 <= i < |issued| && issued[i].member == member
  }

  function Grant(p: Policy, m: Membership): Policy {
    p.(permissions := p.permissions[m.member := AccessOf(m)])
  }

  /** A valid certificate of this node's own, for the policy's network. */
  predicate Own(n: Node, policy: Option<Policy>, m: Membership, at: u64) {
    && m.issuer == n.self && Verifies(n, m, {n.self}, at)
    && policy.Some? && policy.value.networkId == m.networkId
  }

  predicate Registers(n: Node, s: State, m: Membership, at: u64) {
    && m.member !in s.revoked && Own(n, s.policy, m, at)
    && (Knows(s.issued, m.member) || |s.issued| < MAX_ISSUED_MEMBERSHIPS)
  }

  /** A certificate taken into the list and the policy in memory. */
  function Enroll(s: State, m: Membership): State
    requires s.policy.Some?
  {
    s.(policy := Some(Grant(s.policy.value, m)), issued := PutMembership(s.issued, m))
  }

  /**
   * The file is replaced first; an error after that leaves the new list on disk only. A list too long
   * for its file is not written.
   */
  function Register(n: Node, s: State, m: Membership, at: u64, disk: L.Disk): State {
    if !Registers(n, s, m, at) || disk == L.NotWritten then s
    else
      var t := s.(kept := s.kept.(issued := PutMembership(s.issued, m)));
      if disk == L.WrittenThenFailed then t else Enroll(t, m)
  }

  predicate HasMembership(n: Node, s: State, at: u64) {
    var access := EntryOf(s.policy, n.self);
    access.Some? && (access.value.expiresAt.None? || access.value.expiresAt.value > at)
  }

  // ----- Installing -----

  function GrantAll(n: Node, networkId: string, certificates: seq<Membership>, trusted: set<NodeId>, at: u64)
    : map<NodeId, Access>
  {
    if certificates == [] then map[]
    else
      var m := certificates[|certificates| - 1];
      var before := GrantAll(n, networkId, certificates[..|certificates| - 1], trusted, at);
      if m.networkId == networkId && Verifies(n, m, trusted, at) then before[m.member := AccessOf(m)] else before
  }

  /** Installing certificates replaces the policy; the revoked set is not consulted. */
  function Enforce(
    n: Node, s: State, networkId: string, certificates: seq<Membership>, trusted: set<NodeId>, at: u64)
    : State
  {
    s.(policy := Some(Policy(networkId, GrantAll(n, networkId, certificates, trusted, at))))
  }

  /** An invitation seats its member and then gives its issuer every permission. */
  function Activate(n: Node, s: State, inv: Invitation, at: u64): Option<State> {
    if !VerifiesFor(n, inv, at) then None
    else
      var m := inv.membership;
      var seated := Enforce(n, s, m.networkId, [m], {m.issuer}, at);
      Some(seated.(policy := Some(seated.policy.value.(
        permissions := seated.policy.value.permissions[m.issuer := IssuerAccess(m)]))))
  }

  /** The invitation is stored first; an error after that leaves it on disk only. */
  function Install(n: Node, s: State, inv: Invitation, at: u64, disk: L.Disk): State {
    if !VerifiesFor(n, inv, at) || disk == L.NotWritten then s
    else
      var t := s.(kept := s.kept.(invitation := Some(inv)));
      if disk == L.WrittenThenFailed then t else Activate(n, t, inv, at).value
  }

  lemma ActivatedPolicy(n: Node, s: State, inv: Invitation, at: u64)
    requires VerifiesFor(n, inv, at)
    ensures var m := inv.membership;
            Activate(n, s, inv, at) == Some(s.(policy := Some(Policy(m.networkId,
              map[m.member := AccessOf(m)][m.issuer := IssuerAccess(m)]))))
  {
    var m := inv.membership;
    assert [m][..0] == [];
    assert GrantAll(n, m.networkId, [m], {m.issuer}, at) == map[m.member := AccessOf(m)];
  }

  // ----- Start-up -----

  /** The stored certificates are enrolled one by one; certificate `i` is checked at `clock(i + 1)`. */
  function EnrollAll(n: Node, s: State, stored: seq<Membership>, clock: nat -> u64): Option<State> {
    if stored == [] then Some(s)
    else
      var last := |stored| - 1;
      match EnrollAll(n, s, stored[..last], clock)
      case None => None
      case Some(t) => if Registers(n, t, stored[last], clock(last + 1)) then Some(Enroll(t, stored[last])) else None
  }

  /** The chain a restart finds in the block files. */
  function FoundChain(s: State): Option<seq<K.Block>> {
    var found := L.Reopened(s.ledger);
    if found.Some? && L.OneNetwork(found.value) then found else None
  }

  /** The stored invitation, if there is one, is activated and then the stored certificates are enrolled. */
  function Seated(n: Node, s: State, clock: nat -> u64): Option<State> {
    var invited := if s.kept.invitation.None? then Some(s) else Activate(n, s, s.kept.invitation.value, clock(0));
    if invited.None? || |s.kept.issued| > MAX_ISSUED_MEMBERSHIPS then None
    else EnrollAll(n, invited.value, s.kept.issued, clock)
  }

  /**
   * Start-up: the block files must reopen, the stored invitation must activate, every stored
   * certificate must enroll, and then the chain found is replayed once.
   */
  function Reopen(n: Node, s: State, clock: nat -> u64): Option<State> {
    match FoundChain(s)
    case None => None
    case Some(blocks) =>
      match Seated(n, State(true, L.Files(blocks, []), s.kept, [], {}, None), clock)
      case None => None
      case Some(t) => Some(ApplyChanges(t, ChangesOf(EventsOf(blocks))))
  }

  // ----- Runs -----

  datatype Step =
    | Append(block: K.Block, verified: bool, disk: L.Disk)
    | Record(block: K.Block, verified: bool, disk: L.Disk)
    | Issue(m: Membership, asked: u64, at: u64, disk: L.Disk)
    | Invite(invitation: Invitation, at: u64, disk: L.Disk)
    | Certify(networkId: string, certificates: seq<Membership>, trusted: set<NodeId>, at: u64)
    | Restart(clock: nat -> u64)

  /** A node that is not up only answers to a restart. */
  function Take(n: Node, s: State, step: Step): State {
    if !s.up && !step.Restart? then s
    else
      match step
      case Append(b, verified, disk) => AppendBlock(n, s, b, verified, disk)
      case Record(b, verified, disk) => AppendRecord(n, s, b, verified, disk)
      case Issue(m, asked, at, disk) => if HasMembership(n, s, asked) then Register(n, s, m, at, disk) else s
      case Invite(inv, at, disk) => Install(n, s, inv, at, disk)
      case Certify(networkId, certificates, trusted, at) => Enforce(n, s, networkId, certificates, trusted, at)
      case Restart(clock) =>
        var r := Reopen(n, s, clock);
        if r.Some? then r.value else s.(up := false)
  }

  function After(n: Node, s: State, steps: seq<Step>): State {
    if steps == [] then s else Take(n, After(n, s, steps[..|steps| - 1]), steps[|steps| - 1])
  }

  predicate DistinctMembers(issued: seq<Membership>) {
    forall i, j | 0 <= i < j < |issued| :: issued[i].member != issued[j].member
  }

  /** A bounded list with one authentic certificate of this node's own a member. */
  predicate OwnList(n: Node, issued: seq<Membership>) {
    && DistinctMembers(issued) && |issued| <= MAX_ISSUED_MEMBERSHIPS
    && forall i | 0 <= i < |issued| :: issued[i].issuer == n.self && n.authentic(issued[i])
  }

  predicate GoodInvitation(n: Node, inv: Invitation) {
    inv.version == 1 && inv.membership.member == n.self && n.authentic(inv.membership)
  }

  /**
   * The incremental set is the full replay of the chain in memory; the block files are that chain and
   * orphans that followed it; the lists in memory and on disk are own lists; the stored invitation is
   * an authentic one for this node.
   */
  predicate Synced(n: Node, s: State) {
    && L.Orderly(n.codec, s.ledger) && OwnList(n, s.issued) && OwnList(n, s.kept.issued)
    && (s.kept.invitation.Some? ==> GoodInvitation(n, s.kept.invitation.value))
    && s.revoked == Apply({}, ChangesOf(EventsOf(s.ledger.blocks)))
  }

  // ----- What every step keeps -----

  lemma {:induction false} PutKeepsDistinct(issued: seq<Membership>, m: Membership)
    requires DistinctMembers(issued)
    ensures DistinctMembers(PutMembership(issued, m))
    ensures |PutMembership(issued, m)| == |issued| + (if Knows(issued, m.member) then 0 else 1)
    ensures forall k | 0 <= k < |PutMembership(issued, m)| ::
              PutMembership(issued, m)[k] == m || PutMembership(issued, m)[k] in issued
  {
    if issued != [] && issued[0].member != m.member {
      var rest := issued[1..];
      PutKeepsDistinct(rest, m);
      assert forall i | 0 <= i < |rest| :: rest[i] == issued[i + 1];
      assert Knows(issued, m.member) <==> Knows(rest, m.member) by {
        if Knows(issued, m.member) {
          var i :| 0 <= i < |issued| && issued[i].member == m.member;
          assert rest[i - 1] == issued[i];
        }
      }
    }
  }

  lemma {:induction false} PutAppends(issued: seq<Membership>, m: Membership)
    requires forall i | 0 <= i < |issued| :: issued[i].member != m.member
    ensures PutMembership(issued, m) == issued + [m]
  {
    if issued != [] {
      PutAppends(issued[1..], m);
      assert issued == [issued[0]] + issued[1..];
    }
  }

  /** The certificate is in the list, in its member's place or at the end; every other one stays where it was. */
  lemma {:induction false} PutExactly(issued: seq<Membership>, m: Membership)
    ensures var put := PutMembership(issued, m);
            && m in put && |issued| <= |put| <= |issued| + 1
            && (DistinctMembers(issued) ==> forall i | 0 <= i < |put| && put[i].member == m.member :: put[i] == m)
            && forall i | 0 <= i < |issued| && issued[i].member != m.member :: put[i] == issued[i]
    decreases |issued|
  {
    if issued == [] || issued[0].member == m.member {
      assert PutMembership(issued, m)[0] == m;
    } else {
      var rest := issued[1..];
      PutExactly(rest, m);
      var put, after := PutMembership(issued, m), PutMembership(rest, m);
      assert put == [issued[0]] + after;
      var k :| 0 <= k < |after| && after[k] == m;
      assert put[k + 1] == m;
      forall i | 0 <= i < |issued| && issued[i].member != m.member ensures put[i] == issued[i] {
        if i > 0 { assert rest[i - 1] == issued[i] && put[i] == after[i - 1]; }
      }
      assert DistinctMembers(issued) ==> DistinctMembers(rest);
    }
  }

  lemma PutKeepsOwn(n: Node, issued: seq<Membership>, m: Membership)
    requires OwnList(n, issued) && m.issuer == n.self && n.authentic(m)
    requires Knows(issued, m.member) || |issued| < MAX_ISSUED_MEMBERSHIPS
    ensures OwnList(n, PutMembership(issued, m))
  {
    PutKeepsDistinct(issued, m);
    hide DistinctMembers, PutMembership, Knows;
  }

  lemma EventsMore(blocks: seq<K.Block>, b: K.Block)
    ensures EventsOf(blocks + [b]) == EventsOf(blocks) + b.events
  {
    assert (blocks + [b])[..|blocks|] == blocks;
  }

  /** Replaying one block more is applying its changes to the set so far. */
  lemma ReplayMore(blocks: seq<K.Block>, b: K.Block)
    ensures Apply({}, ChangesOf(EventsOf(blocks + [b])))
         == Apply(Apply({}, ChangesOf(EventsOf(blocks))), ChangesOf(b.events))
  {
    EventsMore(blocks, b);
    ChangesConcat(EventsOf(blocks), b.events);
    ApplyConcat({}, ChangesOf(EventsOf(blocks)), ChangesOf(b.events));
    hide ChangesOf, Apply, EventsOf;
  }

  lemma BlockKeepsSynced(n: Node, s: State, b: K.Block, verified: bool, disk: L.Disk)
    requires Synced(n, s)
    ensures Synced(n, AppendBlock(n, s, b, verified, disk))
  {
    hide ChangesOf, Apply, OwnList, EventsOf, L.Orderly, L.NameTaken;
    if Admitted(n, s, b, verified) {
      L.TryAppendKeepsOrderly(n.codec, s.ledger, b, disk);
      ReplayMore(s.ledger.blocks, b);
    }
  }

  lemma RecordKeepsSynced(n: Node, s: State, b: K.Block, verified: bool, disk: L.Disk)
    requires Synced(n, s)
    ensures Synced(n, AppendRecord(n, s, b, verified, disk))
  {
    hide ChangesOf, Apply, OwnList, EventsOf, L.Orderly, L.NameTaken;
    if OwnRecord(b) && Admitted(n, s, b, verified) {
      L.TryAppendKeepsOrderly(n.codec, s.ledger, b, disk);
      RecordChangesNothing(s.ledger.blocks, b);
    }
  }

  lemma RecordChangesNothing(blocks: seq<K.Block>, b: K.Block)
    requires OwnRecord(b)
    ensures ChangesOf(EventsOf(blocks + [b])) == ChangesOf(EventsOf(blocks))
  {
    EventsMore(blocks, b);
    NoChange(EventsOf(blocks), b.events[0]);
    assert b.events == [b.events[0]];
    hide ChangesOf, EventsOf;
  }

  lemma RegisterKeepsSynced(n: Node, s: State, m: Membership, at: u64, disk: L.Disk)
    requires Synced(n, s)
    ensures Synced(n, Register(n, s, m, at, disk))
  {
    if Registers(n, s, m, at) { PutKeepsOwn(n, s.issued, m); }
    hide ChangesOf, Apply, OwnList, PutMembership, Knows, EventsOf, L.Orderly;
  }

  // ----- What start-up does -----

  predicate AllOwn(n: Node, policy: Option<Policy>, stored: seq<Membership>, clock: nat -> u64) {
    forall i | 0 <= i < |stored| :: Own(n, policy, stored[i], clock(i + 1))
  }

  function GrantEach(policy: Option<Policy>, stored: seq<Membership>): (r: Option<Policy>)
    ensures r.Some? == policy.Some? && (r.Some? ==> r.value.networkId == policy.value.networkId)
  {
    if stored == [] || policy.None? then policy
    else Some(Grant(GrantEach(policy, stored[..|stored| - 1]).value, stored[|stored| - 1]))
  }

  /** Enrolling a stored list one by one succeeds iff each certificate is a valid own one, and rebuilds the list. */
  lemma {:induction false} EnrollAllExactly(n: Node, s: State, stored: seq<Membership>, clock: nat -> u64)
    requires s.revoked == {} && s.issued == [] && DistinctMembers(stored) && |stored| <= MAX_ISSUED_MEMBERSHIPS
    ensures EnrollAll(n, s, stored, clock) ==
            if AllOwn(n, s.policy, stored, clock) then Some(s.(issued := stored, policy := GrantEach(s.policy, stored)))
            else None
    decreases |stored|
  {
    if stored == [] {
      assert s.issued == stored;
    } else {
      var last := |stored| - 1;
      var front, m := stored[..last], stored[last];
      assert stored == front + [m];
      EnrollAllExactly(n, s, front, clock);
      assert AllOwn(n, s.policy, stored, clock) <==>
             AllOwn(n, s.policy, front, clock) && Own(n, s.policy, m, clock(last + 1));
      if AllOwn(n, s.policy, front, clock) {
        EnrollNext(n, s, front, m, clock(last + 1));
      }
    }
  }

  lemma EnrollNext(n: Node, s: State, front: seq<Membership>, m: Membership, at: u64)
    requires s.revoked == {} && |front| < MAX_ISSUED_MEMBERSHIPS
    requires forall i | 0 <= i < |front| :: front[i].member != m.member
    ensures var t := s.(issued := front, policy := GrantEach(s.policy, front));
            && (Registers(n, t, m, at) <==> Own(n, s.policy, m, at))
            && (Registers(n, t, m, at) ==>
                  Enroll(t, m) == s.(issued := front + [m], policy := GrantEach(s.policy, front + [m])))
  {
    var all := front + [m];
    assert all[..|front|] == front && all[|front|] == m;
    PutAppends(front, m);
    assert s.policy.Some? ==> GrantEach(s.policy, all) == Some(Grant(GrantEach(s.policy, front).value, m));
    hide PutMembership, Verifies, GrantEach, Grant, Knows;
  }

  /** The stored invitation and certificates are of one network and unexpired when they are checked. */
  predicate CanSeat(kept: Kept, clock: nat -> u64) {
    match kept.invitation
    case None => kept.issued == []
    case Some(inv) =>
      && inv.issuedAt <= clock(0) && Unexpired(inv.membership, clock(0))
      && forall i | 0 <= i < |kept.issued| ::
           kept.issued[i].networkId == inv.membership.networkId && Unexpired(kept.issued[i], clock(i + 1))
  }

  /** Everything start-up depends on, as it stands on disk. */
  predicate CanReopen(s: State, clock: nat -> u64) {
    FoundChain(s).Some? && CanSeat(s.kept, clock)
  }

  /** The policy rebuilt from the stored invitation and certificates, before the chain is replayed. */
  function Rebuilt(kept: Kept): Option<Policy> {
    match kept.invitation
    case None => None
    case Some(inv) =>
      var m := inv.membership;
      GrantEach(Some(Policy(m.networkId, map[m.member := AccessOf(m)][m.issuer := IssuerAccess(m)])), kept.issued)
  }

  /** The revoked set a restart computes: an orphan on top is replayed too. */
  function ReplayedSet(s: State): set<NodeId> {
    Apply(s.revoked, ChangesOf(EventsOf(s.ledger.orphans)))
  }

  /** The node a restart gives: the chain with its orphan, the stored lists, and the rebuilt policy less the revoked. */
  function Revived(s: State): State {
    State(true, L.Files(s.ledger.blocks + s.ledger.orphans, []), s.kept, s.kept.issued, ReplayedSet(s),
          Without(Rebuilt(s.kept), ReplayedSet(s)))
  }

  /**
   * A restart succeeds exactly when the block files reopen as a chain of one network, and the stored
   * invitation and every stored certificate are of one network and unexpired when checked.
   */
  lemma RestartExactly(n: Node, s: State, clock: nat -> u64)
    requires Synced(n, s)
    ensures Reopen(n, s, clock) == if CanReopen(s, clock) then Some(Revived(s)) else None
  {
    if FoundChain(s).Some? {
      var blocks := FoundChain(s).value;
      FoundReplay(s);
      SeatedExactly(n, State(true, L.Files(blocks, []), s.kept, [], {}, None), clock);
    }
    hide Apply, ChangesOf, EventsOf, OwnList, Seated, L.Orderly, FoundChain, CanSeat, Rebuilt;
  }

  lemma FoundReplay(s: State)
    requires FoundChain(s).Some? && s.revoked == Apply({}, ChangesOf(EventsOf(s.ledger.blocks)))
    ensures FoundChain(s).value == s.ledger.blocks + s.ledger.orphans
    ensures Apply({}, ChangesOf(EventsOf(FoundChain(s).value))) == ReplayedSet(s)
  {
    var f := s.ledger;
    if f.orphans == [] {
      assert f.blocks + f.orphans == f.blocks;
    } else {
      assert f.orphans == [f.orphans[0]];
      ReplayMore(f.blocks, f.orphans[0]);
      assert EventsOf(f.orphans) == f.orphans[0].events by {
        EventsMore([], f.orphans[0]);
        assert [] + f.orphans == f.orphans;
      }
    }
  }

  /** The membership part of start-up, on a node that has only its chain. */
  lemma SeatedExactly(n: Node, s: State, clock: nat -> u64)
    requires OwnList(n, s.kept.issued)
    requires s.kept.invitation.Some? ==> GoodInvitation(n, s.kept.invitation.value)
    requires s.issued == [] && s.revoked == {} && s.policy == None
    ensures Seated(n, s, clock) ==
            if CanSeat(s.kept, clock) then Some(s.(issued := s.kept.issued, policy := Rebuilt(s.kept))) else None
  {
    hide EnrollAll, GrantAll, Activate, DistinctMembers;
    if s.kept.invitation.None? {
      EnrollAllExactly(n, s, s.kept.issued, clock);
      if s.kept.issued != [] { assert !Own(n, None, s.kept.issued[0], clock(1)); }
    } else {
      var inv := s.kept.invitation.value;
      if VerifiesFor(n, inv, clock(0)) {
        ActivatedPolicy(n, s, inv, clock(0));
        var invited := Activate(n, s, inv, clock(0)).value;
        EnrollAllExactly(n, invited, s.kept.issued, clock);
        StoredAreOwn(n, s.kept.issued, invited.policy, clock);
      } else {
        InvalidDoesNotActivate(n, s, inv, clock(0));
      }
    }
  }

  lemma InvalidDoesNotActivate(n: Node, s: State, inv: Invitation, at: u64)
    requires !VerifiesFor(n, inv, at)
    ensures Activate(n, s, inv, at) == None
  {
  }

  lemma StoredAreOwn(n: Node, stored: seq<Membership>, policy: Option<Policy>, clock: nat -> u64)
    requires OwnList(n, stored) && policy.Some?
    ensures AllOwn(n, policy, stored, clock) <==>
            forall i | 0 <= i < |stored| ::
              stored[i].networkId == policy.value.networkId && Unexpired(stored[i], clock(i + 1))
  {
    hide DistinctMembers;
    assert forall i | 0 <= i < |stored| ::
        Own(n, policy, stored[i], clock(i + 1)) <==>
        stored[i].networkId == policy.value.networkId && Unexpired(stored[i], clock(i + 1));
  }

  /** What a restart finds is what opening the ledger's directory accepts, whatever its listing. */
  lemma RestartOpensLedger(n: Node, s: State, dir: map<L.Name, Bytes>, listing: seq<L.File>, found: seq<K.Block>)
    requires n.codec.Lawful() && Synced(n, s)
    requires L.Persisted(n.codec, dir, s.ledger.blocks + s.ledger.orphans) && L.ListingOf(dir, listing)
    ensures L.Accepts(n.codec, listing, found) <==> FoundChain(s) == Some(found)
  {
    hide Apply, ChangesOf, EventsOf, OwnList, L.Orderly, L.Persisted, L.ListingOf, L.Accepts;
    L.OrphansReopenExactly(n.codec, dir, s.ledger, listing, found);
  }

  // ----- Runs keep the replay -----

  lemma RevivedIsSynced(n: Node, s: State)
    requires Synced(n, s) && FoundChain(s).Some?
    ensures Synced(n, Revived(s))
  {
    FoundReplay(s);
    L.ReopenedIsOrderly(n.codec, s.ledger);
    hide Apply, ChangesOf, EventsOf, OwnList, L.Orderly, Rebuilt;
  }

  lemma StepKeepsSynced(n: Node, s: State, step: Step)
    requires Synced(n, s)
    ensures Synced(n, Take(n, s, step))
  {
    hide Apply, ChangesOf, EventsOf, OwnList, GrantAll, AppendBlock, AppendRecord, Register, Reopen, Revived, L.Orderly;
    match step {
      case Append(b, verified, disk) => BlockKeepsSynced(n, s, b, verified, disk);
      case Record(b, verified, disk) => RecordKeepsSynced(n, s, b, verified, disk);
      case Issue(m, asked, at, disk) => RegisterKeepsSynced(n, s, m, at, disk);
      case Invite(_, _, _) =>
      case Certify(_, _, _, _) =>
      case Restart(clock) =>
        RestartExactly(n, s, clock);
        if CanReopen(s, clock) { RevivedIsSynced(n, s); }
    }
  }

  lemma {:induction false} RunKeepsSynced(n: Node, s: State, steps: seq<Step>)
    requires Synced(n, s)
    ensures Synced(n, After(n, s, steps))
    decreases |steps|
  {
    hide Synced, Take;
    if steps != [] {
      RunKeepsSynced(n, s, steps[..|steps| - 1]);
      StepKeepsSynced(n, After(n, s, steps[..|steps| - 1]), steps[|steps| - 1]);
    }
  }

  /** Some block has an event that revokes the member, and no later event of the chain lets it join. */
  ghost predicate RevokedInChain(blocks: seq<K.Block>, member: NodeId) {
    exists k, i :: 0 <= k < |blocks| && 0 <= i < |blocks[k].events| && RevokedAt(blocks, k, i, member)
  }

  ghost predicate RevokedAt(blocks: seq<K.Block>, k: nat, i: nat, member: NodeId)
    requires k < |blocks| && i < |blocks[k].events|
  {
    && blocks[k].events[i].event == NodeRevoked(member)
    && (forall j | i < j < |blocks[k].events| :: blocks[k].events[j].event != NodeJoined(member))
    && (forall l, j | k < l < |blocks| && 0 <= j < |blocks[l].events| ::
          blocks[l].events[j].event != NodeJoined(member))
  }

  lemma {:induction false} ReplayRevokesExactly(blocks: seq<K.Block>, member: NodeId)
    ensures member in Apply({}, ChangesOf(EventsOf(blocks))) <==> RevokedInChain(blocks, member)
    decreases |blocks|
  {
    if blocks == [] {
      assert Apply({}, ChangesOf(EventsOf(blocks))) == {};
    } else {
      var front, last := blocks[..|blocks| - 1], blocks[|blocks| - 1];
      ReplayRevokesExactly(front, member);
      assert blocks == front + [last];
      ReplayMore(front, last);
      OneBlockMore(front, last, member);
      hide Apply, ChangesOf, EventsOf, RevokedInChain;
      FoldRevokesExactly(Apply({}, ChangesOf(EventsOf(front))), last.events, member);
    }
  }

  lemma OneBlockMore(blocks: seq<K.Block>, b: K.Block, member: NodeId)
    ensures RevokedInChain(blocks + [b], member) <==>
            RevokedIn(b.events, member) || (RevokedInChain(blocks, member) && NeverJoins(b.events, member))
  {
    var all, n := blocks + [b], |blocks|;
    if RevokedIn(b.events, member) {
      var i :| 0 <= i < |b.events| && b.events[i].event == NodeRevoked(member)
               && forall j | i < j < |b.events| :: b.events[j].event != NodeJoined(member);
      assert RevokedAt(all, n, i, member);
    }
    if RevokedInChain(blocks, member) && NeverJoins(b.events, member) {
      var k, i :| 0 <= k < n && 0 <= i < |blocks[k].events| && RevokedAt(blocks, k, i, member);
      assert forall l | 0 <= l < n :: all[l] == blocks[l];
      assert RevokedAt(all, k, i, member);
    }
    if RevokedInChain(all, member) {
      var k, i :| 0 <= k < |all| && 0 <= i < |all[k].events| && RevokedAt(all, k, i, member);
      if k == n {
        assert RevokedIn(b.events, member);
      } else {
        assert all[n] == b && forall l | 0 <= l < n :: all[l] == blocks[l];
        assert RevokedAt(blocks, k, i, member) && NeverJoins(b.events, member);
      }
    }
  }

  lemma SyncedRevokes(n: Node, s: State, member: NodeId)
    requires Synced(n, s)
    ensures member in s.revoked <==> LastWord(EventsOf(s.ledger.blocks), member) == Some(true)
  {
    hide Apply, ChangesOf, EventsOf, LastWord, OwnList, L.Orderly;
    LastEventWins({}, EventsOf(s.ledger.blocks), member);
  }

  /**
   * After any run, restarts and failed writes included, a member is revoked exactly when an event in
   * the chain revokes it and none after that lets it join.
   */
  lemma RevokedIsLastWord(n: Node, s: State, steps: seq<Step>, member: NodeId)
    requires Synced(n, s)
    ensures var now := After(n, s, steps);
            && (member in now.revoked <==> RevokedInChain(now.ledger.blocks, member))
            && (member in now.revoked <==> LastWord(EventsOf(now.ledger.blocks), member) == Some(true))
  {
    RunKeepsSynced(n, s, steps);
    SyncedRevokes(n, After(n, s, steps), member);
    ReplayRevokesExactly(After(n, s, steps).ledger.blocks, member);
    hide Apply, ChangesOf, EventsOf, RevokedInChain, OwnList, L.Orderly, After, LastWord;
  }

  /** An orphan says of every member it names what the running node already holds. */
  ghost predicate OrphansAgree(s: State) {
    forall member: NodeId ::
      LastWord(EventsOf(s.ledger.orphans), member).Some? ==>
        LastWord(EventsOf(s.ledger.orphans), member).value == (member in s.revoked)
  }

  /**
   * A restart that succeeds after any run computes the running node's revoked set exactly when no
   * block file left by a failed append says otherwise of anyone; with no such file, always.
   */
  lemma RestartRevokesExactly(n: Node, s: State, steps: seq<Step>, clock: nat -> u64)
    requires Synced(n, s) && Reopen(n, After(n, s, steps), clock).Some?
    ensures var now := After(n, s, steps);
            && (Reopen(n, now, clock).value.revoked == now.revoked <==> OrphansAgree(now))
            && (now.ledger.orphans == [] ==> Reopen(n, now, clock).value.revoked == now.revoked)
  {
    var now := After(n, s, steps);
    RunKeepsSynced(n, s, steps);
    hide After, Reopen, Synced, CanReopen, ReplayedSet, OrphansAgree, Rebuilt, Without;
    RestartExactly(n, now, clock);
    ReplayAgreesExactly(now);
  }

  lemma ReplayAgreesExactly(s: State)
    ensures ReplayedSet(s) == s.revoked <==> OrphansAgree(s)
    ensures s.ledger.orphans == [] ==> OrphansAgree(s)
  {
    forall member: NodeId ensures member in ReplayedSet(s) <==> Replayed(s, member) {
      LastEventWins(s.revoked, EventsOf(s.ledger.orphans), member);
    }
    hide ReplayedSet, LastWord, EventsOf;
    if OrphansAgree(s) {
      assert forall member: NodeId :: Replayed(s, member) <==> member in s.revoked;
    } else {
      var member :| LastWord(EventsOf(s.ledger.orphans), member).Some?
                    && LastWord(EventsOf(s.ledger.orphans), member).value != (member in s.revoked);
      assert Replayed(s, member) != (member in s.revoked);
    }
    NoOrphansAgree(s);
  }

  /** A member is revoked after a replay of the orphans on top of the set. */
  predicate Replayed(s: State, member: NodeId) {
    match LastWord(EventsOf(s.ledger.orphans), member)
    case Some(revoked) => revoked
    case None => member in s.revoked
  }

  lemma NoOrphansAgree(s: State)
    ensures s.ledger.orphans == [] ==> OrphansAgree(s)
  {
  }

  // ----- When restarting is no longer possible -----

  /** A ledger that does not reopen never does again, whatever is tried. */
  lemma {:induction false} UnopenableStays(n: Node, s: State, steps: seq<Step>)
    requires Synced(n, s) && FoundChain(s) == None
    ensures FoundChain(After(n, s, steps)) == None
    decreases |steps|
  {
    if steps != [] {
      var last := |steps| - 1;
      UnopenableStays(n, s, steps[..last]);
      RunKeepsSynced(n, s, steps[..last]);
      StepStaysUnopenable(n, After(n, s, steps[..last]), steps[last]);
      hide Synced, Take, FoundChain;
    }
  }

  lemma StepStaysUnopenable(n: Node, s: State, step: Step)
    requires Synced(n, s) && FoundChain(s) == None
    ensures FoundChain(Take(n, s, step)) == None
  {
    if step.Append? || step.Record? { AppendStaysUnopenable(n.codec, s.ledger, step.block, step.disk); }
    hide Apply, ChangesOf, EventsOf, OwnList, GrantAll, L.Orderly, L.Reopened, L.OneNetwork, L.TryAppend;
    hide Registers, VerifiesFor, HasMembership, Admitted;
  }

  lemma AppendStaysUnopenable(c: L.Codec, f: L.Files, b: K.Block, disk: L.Disk)
    requires L.Orderly(c, f) && (L.Reopened(f).Some? ==> !L.OneNetwork(L.Reopened(f).value))
    ensures var g := L.TryAppend(c, f, b, disk);
            L.Reopened(g).Some? ==> !L.OneNetwork(L.Reopened(g).value)
  {
    hide L.NameTaken, L.Codec.ValidChain;
    var g := L.TryAppend(c, f, b, disk);
    if f.orphans == [] {
      assert !L.OneNetwork(f.blocks);
      var i :| 0 <= i < |f.blocks| && f.blocks[i].networkId != f.blocks[0].networkId;
      if L.Reopened(g).Some? {
        var found := L.Reopened(g).value;
        assert found[i] == f.blocks[i] && found[0] == f.blocks[0];
      }
    } else {
      assert L.OrphanOk(c, f.blocks, f.orphans[0]);
    }
  }

  // ----- In place -----

  /** The membership side of a running node. */
  class Members {
    const n: Node
    const ledger: L.Ledger
    var kept: Kept
    var issued: seq<Membership>
    var revoked: set<NodeId>
    var policy: Option<Policy>

    ghost function View(): State
      reads this, ledger
    {
      State(true, ledger.View(), kept, issued, revoked, policy)
    }

    constructor (n: Node, ledger: L.Ledger, kept: Kept)
      ensures this.n == n && this.ledger == ledger && View() == State(true, ledger.View(), kept, [], {}, None)
    {
      this.n, this.ledger, this.kept := n, ledger, kept;
      issued, revoked, policy := [], {}, None;
    }

    method ApplyRevocations(changes: seq<Change>)
      modifies this
      ensures View() == ApplyChanges(old(View()), changes)
    {
      for i := 0 to |changes|
        invariant revoked == Apply(old(revoked), changes[..i])
        invariant View() == old(View()).(revoked := revoked)
      {
        assert changes[..i + 1][..i] == changes[..i];
        if changes[i].revoked {
          revoked := revoked + {changes[i].member};
        } else {
          revoked := revoked - {changes[i].member};
        }
      }
      assert changes[..|changes|] == changes;
      policy := Without(policy, revoked);
    }

    /** A failed append returns before any change is applied, even when the block's file stays. */
    method AppendLedgerBlock(verify: K.Block -> bool, eventOk: SignedEvent -> bool, b: K.Block, disk: L.Disk)
      returns (ok: bool)
      requires ledger.Valid(n.codec)
      modifies this, ledger
      ensures ledger.Valid(n.codec)
      ensures var verified := verify(b) && forall e | e in b.events :: eventOk(e);
              && ok == (Admitted(n, old(View()), b, verified) && Lands(n, old(View()), b, disk))
              && View() == AppendBlock(n, old(View()), b, verified, disk)
      ensures Synced(n, old(View())) ==> Synced(n, View())
    {
      ghost var verified := verify(b) && forall e | e in b.events :: eventOk(e);
      if Synced(n, View()) { BlockKeepsSynced(n, View(), b, verified, disk); }
      hide Synced, L.Ledger.Valid, ChangesOf, Apply, L.Codec.Follows, L.NameTaken;
      var appended := ledger.Append(n.codec, verify, eventOk, b, disk);
      if appended.Err? { return false; }
      ApplyRevocations(ChangesOf(b.events));
      return true;
    }

    /** Persisting is left out at start-up. */
    method RegisterIssued(m: Membership, at: u64, persist: bool, disk: L.Disk) returns (ok: bool)
      modifies this
      ensures ok == (Registers(n, old(View()), m, at) && (persist ==> disk == L.Written))
      ensures persist ==> View() == Register(n, old(View()), m, at, disk)
      ensures !persist ==>
                View() == if Registers(n, old(View()), m, at) then Enroll(old(View()), m) else old(View())
    {
      if m.member in revoked || m.issuer != n.self || !Verifies(n, m, {n.self}, at) {
        return false;
      }
      var known := exists i | 0 <= i < |issued| :: issued[i].member == m.member;
      if !known && |issued| >= MAX_ISSUED_MEMBERSHIPS {
        return false;
      }
      var candidate := PutMembership(issued, m);
      if policy.None? || policy.value.networkId != m.networkId {
        return false;
      }
      hide PutMembership, Verifies;
      if persist {
        if disk == L.NotWritten { return false; }
        kept := kept.(issued := candidate);
        if disk == L.WrittenThenFailed { return false; }
      }
      policy := Some(Grant(policy.value, m));
      issued := candidate;
      return true;
    }

    method EnforceMembership(networkId: string, certificates: seq<Membership>, trusted: set<NodeId>, at: u64)
      modifies this
      ensures View() == Enforce(n, old(View()), networkId, certificates, trusted, at)
    {
      var permissions: map<NodeId, Access> := map[];
      for i := 0 to |certificates|
        invariant permissions == GrantAll(n, networkId, certificates[..i], trusted, at)
      {
        assert certificates[..i + 1][..i] == certificates[..i];
        var m := certificates[i];
        if m.networkId == networkId && Verifies(n, m, trusted, at) {
          permissions := permissions[m.member := AccessOf(m)];
        }
      }
      assert certificates[..|certificates|] == certificates;
      policy := Some(Policy(networkId, permissions));
    }

    method ActivateInvitation(inv: Invitation, at: u64) returns (ok: bool)
      modifies this
      ensures ok == VerifiesFor(n, inv, at)
      ensures View() == if ok then Activate(n, old(View()), inv, at).value else old(View())
    {
      if !VerifiesFor(n, inv, at) { return false; }
      var m := inv.membership;
      EnforceMembership(m.networkId, [m], {m.issuer}, at);
      policy := Some(policy.value.(permissions := policy.value.permissions[m.issuer := IssuerAccess(m)]));
      return true;
    }

    method RegisterStored(clock: nat -> u64) returns (ok: bool)
      modifies this
      ensures ok == EnrollAll(n, old(View()), old(kept.issued), clock).Some?
      ensures ok ==> View() == EnrollAll(n, old(View()), old(kept.issued), clock).value
    {
      hide Registers, PutMembership, Grant;
      for i := 0 to |kept.issued|
        invariant kept == old(kept) && EnrollAll(n, old(View()), kept.issued[..i], clock) == Some(View())
      {
        assert kept.issued[..i + 1][..i] == kept.issued[..i];
        ok := RegisterIssued(kept.issued[i], clock(i + 1), false, L.NotWritten);
        if !ok {
          FailureSurfaces(n, old(View()), kept.issued, i + 1, clock);
          return false;
        }
      }
      assert kept.issued[..|kept.issued|] == kept.issued;
      return true;
    }

    /** Activates what is stored, in the order start-up does. */
    method Seat(clock: nat -> u64) returns (ok: bool)
      modifies this
      ensures ok == Seated(n, old(View()), clock).Some?
      ensures ok ==> View() == Seated(n, old(View()), clock).value
    {
      hide Activate, EnrollAll, VerifiesFor;
      if kept.invitation.Some? {
        ActivatesExactly(n, View(), kept.invitation.value, clock(0));
        ok := ActivateInvitation(kept.invitation.value, clock(0));
        if !ok { return false; }
      }
      if |kept.issued| > MAX_ISSUED_MEMBERSHIPS { return false; }
      ok := RegisterStored(clock);
    }

    /** The invitation is stored before it is activated. */
    method InstallInvitation(inv: Invitation, at: u64, disk: L.Disk) returns (ok: bool)
      modifies this
      ensures ok == (VerifiesFor(n, inv, at) && disk == L.Written)
      ensures View() == Install(n, old(View()), inv, at, disk)
    {
      if !VerifiesFor(n, inv, at) || disk == L.NotWritten { return false; }
      kept := kept.(invitation := Some(inv));
      if disk == L.WrittenThenFailed { return false; }
      ok := ActivateInvitation(inv, at);
    }
  }

  /** What a former life left on disk. */
  ghost predicate LeftBehind(n: Node, files: L.Files, dir: map<L.Name, Bytes>, listing: seq<L.File>) {
    && n.codec.Lawful() && L.Orderly(n.codec, files)
    && L.Persisted(n.codec, dir, files.blocks + files.orphans) && L.ListingOf(dir, listing)
  }

  /** Opens a node on what a former life left, or fails exactly as start-up does. */
  method OpenNode(
    n: Node, dir: map<L.Name, Bytes>, listing: seq<L.File>, kept: Kept, clock: nat -> u64, ghost s: State)
    returns (r: Option<Members>)
    requires LeftBehind(n, s.ledger, dir, listing) && s.kept == kept
    ensures r.Some? == Reopen(n, s, clock).Some?
    ensures r.Some? ==> r.value.n == n && r.value.ledger.Valid(n.codec) && r.value.View() == Reopen(n, s, clock).value
  {
    hide Apply, ChangesOf, EventsOf, Seated, LeftBehind, FoundChain, L.Orderly, L.Codec.ValidChain, L.Persisted;
    var loaded := L.Open(n.codec, listing);
    FoundExactly(n, s, dir, listing, loaded);
    if loaded.Err? { return None; }
    var ledger := new L.Ledger(n.codec, loaded.value, dir);
    var node := new Members(n, ledger, kept);
    var ok := node.Seat(clock);
    if !ok { return None; }
    node.ApplyRevocations(ChangesOf(EventsOf(ledger.blocks)));
    r := Some(node);
  }

  lemma FoundExactly(
    n: Node, s: State, dir: map<L.Name, Bytes>, listing: seq<L.File>, loaded: Result<seq<K.Block>, L.Error>)
    requires LeftBehind(n, s.ledger, dir, listing)
    requires loaded.Ok? ==> L.Accepts(n.codec, listing, loaded.value)
    requires loaded.Err? ==> forall blocks :: !L.Accepts(n.codec, listing, blocks)
    ensures FoundChain(s) == if loaded.Ok? then Some(loaded.value) else None
    ensures loaded.Ok? ==>
              n.codec.ValidChain(loaded.value) && L.Persisted(n.codec, dir, loaded.value)
  {
    var f := s.ledger;
    if loaded.Ok? {
      L.OrphansReopenExactly(n.codec, dir, f, listing, loaded.value);
      assert f.orphans == [] ==> f.blocks + f.orphans == f.blocks;
    } else if L.Reopened(f).Some? {
      L.OrphansReopenExactly(n.codec, dir, f, listing, L.Reopened(f).value);
    }
    hide L.Orderly, L.Persisted, L.OneNetwork, L.ListingOf, L.Codec.Lawful, L.Codec.ValidChain;
  }

  lemma ActivatesExactly(n: Node, s: State, inv: Invitation, at: u64)
    ensures Activate(n, s, inv, at).Some? == VerifiesFor(n, inv, at)
    ensures VerifiesFor(n, inv, at) ==> Activate(n, s, inv, at).value.kept == s.kept
  {
  }

  lemma {:induction false} FailureSurfaces(n: Node, s: State, stored: seq<Membership>, k: nat, clock: nat -> u64)
    requires k <= |stored| && EnrollAll(n, s, stored[..k], clock) == None
    ensures EnrollAll(n, s, stored, clock) == None
    decreases |stored|
  {
    if k < |stored| {
      assert stored[..|stored| - 1][..k] == stored[..k];
      FailureSurfaces(n, s, stored[..|stored| - 1], k, clock);
    } else {
      assert stored[..k] == stored;
    }
  }
}
