/**
 * Whom the gate lets through over whole runs: when a revoked member stays out, what each member may
 * do, and the runs on which a restart differs from the running node.
 */
module Admission {
  import opened Common
  import opened Protocol
  import opened Revocation
  import opened Gate
  import K = Consensus
  import L = Chain

  // ----- Who is shut out -----

  predicate ShutOut(s: State) {
    s.policy.Some? ==> forall m | m in s.policy.value.permissions :: m !in s.revoked
  }

  /** There is a policy, and nobody revoked has an entry in it. */
  predicate Closed(s: State) {
    s.policy.Some? && ShutOut(s)
  }

  /** The two installers do not consult the revoked set. */
  predicate Readmits(n: Node, s: State, step: Step) {
    && s.up
    && match step
       case Invite(inv, at, disk) =>
         && VerifiesFor(n, inv, at) && disk == L.Written
         && (inv.membership.member in s.revoked || inv.membership.issuer in s.revoked)
       case Certify(networkId, certificates, trusted, at) =>
         exists i :: 0 <= i < |certificates| && certificates[i].networkId == networkId
                     && Verifies(n, certificates[i], trusted, at) && certificates[i].member in s.revoked
       case _ => false
  }

  /** A restart that succeeds without a stored invitation has no policy, whatever was enforced before it. */
  predicate Ungates(s: State, step: Step) {
    step.Restart? && CanReopen(s, step.clock) && s.kept.invitation.None?
  }

  /** An invitation keeps revoked members out exactly when neither its member nor its issuer is revoked. */
  lemma ActivateShutsOutExactly(n: Node, s: State, inv: Invitation, at: u64)
    requires VerifiesFor(n, inv, at)
    ensures Closed(Activate(n, s, inv, at).value) <==>
            inv.membership.member !in s.revoked && inv.membership.issuer !in s.revoked
  {
    ActivatedPolicy(n, s, inv, at);
    hide Activate, VerifiesFor;
    var m := inv.membership;
    var permissions := map[m.member := AccessOf(m)][m.issuer := IssuerAccess(m)];
    assert m.member in permissions && m.issuer in permissions;
  }

  /** Certificates keep revoked members out exactly when no installed one names a revoked member. */
  lemma EnforceShutsOutExactly(
    n: Node, s: State, networkId: string, certificates: seq<Membership>, trusted: set<NodeId>, at: u64)
    ensures Closed(Enforce(n, s, networkId, certificates, trusted, at)) <==>
            forall i | 0 <= i < |certificates| && certificates[i].networkId == networkId
                       && Verifies(n, certificates[i], trusted, at) :: certificates[i].member !in s.revoked
  {
    var granted := GrantAll(n, networkId, certificates, trusted, at);
    forall member: NodeId
      ensures member in granted <==>
              exists i :: 0 <= i < |certificates| && certificates[i].networkId == networkId
                          && Verifies(n, certificates[i], trusted, at) && certificates[i].member == member
    {
      GrantAllNames(n, networkId, certificates, trusted, at, member);
    }
  }

  lemma {:induction false} GrantAllNames(
    n: Node, networkId: string, certificates: seq<Membership>, trusted: set<NodeId>, at: u64, member: NodeId)
    ensures member in GrantAll(n, networkId, certificates, trusted, at) <==>
            exists i :: 0 <= i < |certificates| && certificates[i].networkId == networkId
                        && Verifies(n, certificates[i], trusted, at) && certificates[i].member == member
    decreases |certificates|
  {
    if certificates != [] {
      var last := |certificates| - 1;
      var front := certificates[..last];
      GrantAllNames(n, networkId, front, trusted, at, member);
      assert forall i | 0 <= i < last :: front[i] == certificates[i];
    }
  }

  /** A restart that succeeds closes the gate exactly when an invitation is stored; no policy, no gate. */
  lemma RestartClosesExactly(n: Node, s: State, clock: nat -> u64)
    requires Synced(n, s) && Reopen(n, s, clock).Some?
    ensures var t := Reopen(n, s, clock).value;
            && ShutOut(t) && (Closed(t) <==> s.kept.invitation.Some?)
            && (s.kept.invitation.None? ==> forall member, permission, at :: Authorized(t, member, permission, at))
  {
    RestartExactly(n, s, clock);
    RebuiltIsPolicy(s.kept);
    hide Reopen, Synced, Rebuilt, ReplayedSet, CanReopen;
  }

  lemma RebuiltIsPolicy(kept: Kept)
    ensures Rebuilt(kept).Some? <==> kept.invitation.Some?
  {
    if kept.invitation.Some? {
      var m := kept.invitation.value.membership;
      var invited := Policy(m.networkId, map[m.member := AccessOf(m)][m.issuer := IssuerAccess(m)]);
      GrantEachIsPolicy(Some(invited), kept.issued);
    }
  }

  lemma {:induction false} GrantEachIsPolicy(policy: Option<Policy>, stored: seq<Membership>)
    requires policy.Some?
    ensures GrantEach(policy, stored).Some?
    decreases |stored|
  {
    if stored != [] { GrantEachIsPolicy(policy, stored[..|stored| - 1]); }
  }

  /** A node whose restart fails is down, and answers nobody until one succeeds. */
  lemma FailedRestartAnswersNobody(
    n: Node, s: State, clock: nat -> u64, step: Step, member: NodeId, permission: string, at: u64)
    requires Synced(n, s) && !CanReopen(s, clock)
    ensures var down := Take(n, s, Restart(clock));
            && !Authorized(down, member, permission, at) && down.ledger == s.ledger && down.kept == s.kept
            && (!step.Restart? ==> Take(n, down, step) == down)
  {
    hide Synced, Reopen, CanReopen;
    RestartExactly(n, s, clock);
  }

  /** A block that is appended shuts out every revoked member again, whatever came before. */
  lemma BlockShutsOut(n: Node, s: State, b: K.Block, verified: bool, disk: L.Disk)
    requires Admitted(n, s, b, verified) && Lands(n, s, b, disk)
    ensures ShutOut(AppendBlock(n, s, b, verified, disk))
    ensures s.policy.Some? ==> Closed(AppendBlock(n, s, b, verified, disk))
  {
    hide Apply, ChangesOf, Admitted, Lands, L.TryAppend;
  }

  /**
   * A closed gate stays closed under every step, except exactly when an installer readmits a revoked
   * member or a restart finds no stored invitation.
   */
  lemma StepClosesExactly(n: Node, s: State, step: Step)
    requires Synced(n, s) && Closed(s)
    ensures Closed(Take(n, s, step)) <==> !Readmits(n, s, step) && !Ungates(s, step)
  {
    if step.Restart? {
      RestartExactly(n, s, step.clock);
      if CanReopen(s, step.clock) { RestartClosesExactly(n, s, step.clock); }
      hide Reopen, Synced, CanReopen, Revived;
    } else {
      RunningStepCloses(n, s, step);
    }
  }

  lemma RunningStepCloses(n: Node, s: State, step: Step)
    requires Closed(s) && !step.Restart?
    ensures Closed(Take(n, s, step)) <==> !Readmits(n, s, step)
  {
    hide Apply, ChangesOf, PutMembership, Knows, GrantAll, VerifiesFor;
    hide Admitted, Lands, L.TryAppend, Activate, OwnRecord;
    if s.up {
      match step {
        case Invite(inv, at, disk) =>
          var t := s.(kept := s.kept.(invitation := Some(inv)));
          if VerifiesFor(n, inv, at) { ActivateShutsOutExactly(n, t, inv, at); }
        case Certify(networkId, certificates, trusted, at) =>
          EnforceShutsOutExactly(n, s, networkId, certificates, trusted, at);
        case _ =>
      }
    }
  }

  predicate NeverOpens(n: Node, s: State, steps: seq<Step>) {
    forall k | 0 <= k < |steps| ::
      !Readmits(n, After(n, s, steps[..k]), steps[k]) && !Ungates(After(n, s, steps[..k]), steps[k])
  }

  /**
   * From a closed gate, on every run in which no installer readmits one and no restart finds no stored
   * invitation, nobody whom the chain revokes, with no join after that, passes for anything.
   */
  lemma RevokedIsShutOut(n: Node, s: State, steps: seq<Step>, member: NodeId, permission: string, at: u64)
    requires Synced(n, s) && Closed(s) && NeverOpens(n, s, steps)
    ensures Closed(After(n, s, steps))
    ensures RevokedInChain(After(n, s, steps).ledger.blocks, member) ==>
              !Authorized(After(n, s, steps), member, permission, at)
  {
    RunStaysClosed(n, s, steps);
    RevokedIsLastWord(n, s, steps, member);
    hide After, RevokedInChain;
  }

  lemma {:induction false} RunStaysClosed(n: Node, s: State, steps: seq<Step>)
    requires Synced(n, s) && Closed(s) && NeverOpens(n, s, steps)
    ensures Closed(After(n, s, steps))
    decreases |steps|
  {
    if steps != [] {
      var last := |steps| - 1;
      var front := steps[..last];
      LastNeverOpens(n, s, steps);
      hide Take, Synced, Readmits, Ungates, NeverOpens;
      RunStaysClosed(n, s, front);
      RunKeepsSynced(n, s, front);
      StepClosesExactly(n, After(n, s, front), steps[last]);
    }
  }

  lemma LastNeverOpens(n: Node, s: State, steps: seq<Step>)
    requires steps != [] && NeverOpens(n, s, steps)
    ensures var front, last := steps[..|steps| - 1], steps[|steps| - 1];
            && NeverOpens(n, s, front)
            && !Readmits(n, After(n, s, front), last) && !Ungates(After(n, s, front), last)
  {
    hide After, Readmits, Ungates;
    var front := steps[..|steps| - 1];
    assert forall k | 0 <= k < |front| :: front[..k] == steps[..k] && front[k] == steps[k];
  }

  /** A node that may serve restricted listeners has a gate, and keeps it for as long as the process lives. */
  lemma {:induction false} ServingStaysGated(n: Node, s: State, started: u64, steps: seq<Step>)
    requires HasMembership(n, s, started)
    requires forall k | 0 <= k < |steps| :: !steps[k].Restart?
    ensures After(n, s, steps).policy.Some?
    decreases |steps|
  {
    if steps != [] {
      var last := |steps| - 1;
      ServingStaysGated(n, s, started, steps[..last]);
      RunningKeepsGate(n, After(n, s, steps[..last]), steps[last]);
      hide Take, HasMembership;
    }
  }

  lemma RunningKeepsGate(n: Node, s: State, step: Step)
    requires !step.Restart?
    ensures Take(n, s, step).policy.Some? <==> s.policy.Some? || Installs(n, s, step)
  {
    hide Apply, ChangesOf, PutMembership, GrantAll, Admitted, Lands;
    hide L.TryAppend, HasMembership, OwnRecord, Knows, Verifies;
  }

  // ----- What each member may do -----

  /** A step that puts a policy in place of whatever there was. */
  predicate Installs(n: Node, s: State, step: Step) {
    s.up && (step.Certify? || (step.Invite? && VerifiesFor(n, step.invitation, step.at) && step.disk == L.Written))
  }

  /** Whether there is a gate, by reading the history. */
  predicate Gated(n: Node, s: State, steps: seq<Step>)
    decreases |steps|
  {
    if steps == [] then s.policy.Some?
    else
      var front, last := steps[..|steps| - 1], steps[|steps| - 1];
      var before := After(n, s, front);
      if last.Restart? && CanReopen(before, last.clock) then before.kept.invitation.Some?
      else Gated(n, s, front) || Installs(n, before, last)
  }

  /** The last certificate of a list that names a member. */
  function CertificateOf(stored: seq<Membership>, member: NodeId): Option<Membership> {
    if stored == [] then None
    else if stored[|stored| - 1].member == member then Some(stored[|stored| - 1])
    else CertificateOf(stored[..|stored| - 1], member)
  }

  /** The certificates of a list that are installed. */
  function Valid(n: Node, networkId: string, certificates: seq<Membership>, trusted: set<NodeId>, at: u64)
    : seq<Membership>
  {
    if certificates == [] then []
    else
      var m := certificates[|certificates| - 1];
      Valid(n, networkId, certificates[..|certificates| - 1], trusted, at) +
      (if m.networkId == networkId && Verifies(n, m, trusted, at) then [m] else [])
  }

  function CertifiedEntry(stored: seq<Membership>, member: NodeId, otherwise: Option<Access>): Option<Access> {
    match CertificateOf(stored, member)
    case Some(m) => Some(AccessOf(m))
    case None => otherwise
  }

  function InvitedEntry(m: Membership, member: NodeId): Option<Access> {
    if member == m.issuer then Some(IssuerAccess(m)) else if member == m.member then Some(AccessOf(m)) else None
  }

  /** What a restart gives a member: its stored certificate, else what the stored invitation gives it. */
  function RebuiltEntry(kept: Kept, member: NodeId): Option<Access> {
    match kept.invitation
    case None => None
    case Some(inv) => CertifiedEntry(kept.issued, member, InvitedEntry(inv.membership, member))
  }

  /** How a step changes the access a member has. */
  function Revised(n: Node, before: State, step: Step, member: NodeId, access: Option<Access>): Option<Access> {
    if !before.up && !step.Restart? then access
    else
      match step
      case Append(b, verified, disk) =>
        if Admitted(n, before, b, verified) && Lands(n, before, b, disk)
           && LastWord(EventsOf(before.ledger.blocks) + b.events, member) == Some(true) then None else access
      case Record(_, _, _) => access
      case Issue(m, asked, at, disk) =>
        if HasMembership(n, before, asked) && m.member == member && Registers(n, before, m, at) && disk == L.Written
        then Some(AccessOf(m)) else access
      case Invite(inv, at, disk) =>
        if VerifiesFor(n, inv, at) && disk == L.Written then InvitedEntry(inv.membership, member) else access
      case Certify(networkId, certificates, trusted, at) =>
        CertifiedEntry(Valid(n, networkId, certificates, trusted, at), member, None)
      case Restart(clock) =>
        if !CanReopen(before, clock) then access
        else if LastWord(EventsOf(before.ledger.blocks + before.ledger.orphans), member) == Some(true) then None
        else RebuiltEntry(before.kept, member)
  }

  /** The access a member has by reading the history step by step, with no policy kept. */
  function Standing(n: Node, s: State, steps: seq<Step>, member: NodeId): Option<Access>
    decreases |steps|
  {
    if steps == [] then EntryOf(s.policy, member)
    else
      var last := |steps| - 1;
      Revised(n, After(n, s, steps[..last]), steps[last], member, Standing(n, s, steps[..last], member))
  }

  lemma {:induction false} GrantEachEntry(policy: Option<Policy>, stored: seq<Membership>, member: NodeId)
    requires policy.Some?
    ensures EntryOf(GrantEach(policy, stored), member) == CertifiedEntry(stored, member, EntryOf(policy, member))
    decreases |stored|
  {
    if stored != [] { GrantEachEntry(policy, stored[..|stored| - 1], member); }
  }

  lemma {:induction false} GrantAllEntry(
    n: Node, networkId: string, certificates: seq<Membership>, trusted: set<NodeId>, at: u64, member: NodeId)
    ensures EntryOf(Some(Policy(networkId, GrantAll(n, networkId, certificates, trusted, at))), member)
         == CertifiedEntry(Valid(n, networkId, certificates, trusted, at), member, None)
    decreases |certificates|
  {
    if certificates != [] {
      var last := |certificates| - 1;
      var front, m := Valid(n, networkId, certificates[..last], trusted, at), certificates[last];
      GrantAllEntry(n, networkId, certificates[..last], trusted, at, member);
      CertifiedMore(front, m, member);
      assert front + [] == front;
      hide Verifies, CertifiedEntry, AccessOf;
    }
  }

  lemma CertifiedMore(stored: seq<Membership>, m: Membership, member: NodeId)
    ensures CertifiedEntry(stored + [m], member, None)
         == if m.member == member then Some(AccessOf(m)) else CertifiedEntry(stored, member, None)
  {
    assert (stored + [m])[..|stored|] == stored;
  }

  lemma RebuiltAccess(kept: Kept, member: NodeId)
    ensures EntryOf(Rebuilt(kept), member) == RebuiltEntry(kept, member)
  {
    if kept.invitation.Some? {
      var m := kept.invitation.value.membership;
      var policy := Some(Policy(m.networkId, map[m.member := AccessOf(m)][m.issuer := IssuerAccess(m)]));
      assert EntryOf(policy, member) == InvitedEntry(m, member);
      GrantEachEntry(policy, kept.issued, member);
    }
  }

  lemma StepRevises(n: Node, s: State, step: Step, member: NodeId)
    requires Synced(n, s)
    ensures EntryOf(Take(n, s, step).policy, member) == Revised(n, s, step, member, EntryOf(s.policy, member))
  {
    match step {
      case Append(b, verified, disk) => BlockRevises(n, s, b, verified, disk, member);
      case Invite(inv, at, disk) =>
        if VerifiesFor(n, inv, at) { ActivatedPolicy(n, s.(kept := s.kept.(invitation := Some(inv))), inv, at); }
      case Certify(networkId, certificates, trusted, at) =>
        GrantAllEntry(n, networkId, certificates, trusted, at, member);
      case Restart(clock) => RestartRevises(n, s, clock, member);
      case _ =>
    }
    hide Apply, ChangesOf, EventsOf, PutMembership, Knows, LastWord, Synced, GrantAll, Valid, Activate, Lands;
    hide AppendBlock, Reopen, CertifiedEntry, VerifiesFor, HasMembership, CanReopen, RebuiltEntry, Own, Admitted;
  }

  lemma BlockRevises(n: Node, s: State, b: K.Block, verified: bool, disk: L.Disk, member: NodeId)
    requires Synced(n, s)
    ensures EntryOf(AppendBlock(n, s, b, verified, disk).policy, member)
         == if Admitted(n, s, b, verified) && Lands(n, s, b, disk)
               && LastWord(EventsOf(s.ledger.blocks) + b.events, member) == Some(true) then None
            else EntryOf(s.policy, member)
  {
    hide Apply, ChangesOf, EventsOf, LastWord, Admitted, Synced;
    BlockKeepsSynced(n, s, b, verified, disk);
    SyncedRevokes(n, AppendBlock(n, s, b, verified, disk), member);
    EventsMore(s.ledger.blocks, b);
  }

  lemma RestartRevises(n: Node, s: State, clock: nat -> u64, member: NodeId)
    requires Synced(n, s)
    ensures CanReopen(s, clock) == Reopen(n, s, clock).Some?
    ensures CanReopen(s, clock) ==>
              EntryOf(Reopen(n, s, clock).value.policy, member)
              == if LastWord(EventsOf(s.ledger.blocks + s.ledger.orphans), member) == Some(true) then None
                 else RebuiltEntry(s.kept, member)
  {
    hide EventsOf, LastWord, Rebuilt, RebuiltEntry, Reopen, CanSeat, FoundChain, ReplayedSet, Synced;
    RestartExactly(n, s, clock);
    if CanReopen(s, clock) {
      RevivedIsSynced(n, s);
      SyncedRevokes(n, Revived(s), member);
      RebuiltAccess(s.kept, member);
    }
  }

  /** On every run, failed writes and restarts included, each policy entry is what the history gives that member. */
  lemma {:induction false} AccessIsLastGrant(n: Node, s: State, steps: seq<Step>, member: NodeId)
    requires Synced(n, s)
    ensures EntryOf(After(n, s, steps).policy, member) == Standing(n, s, steps, member)
    decreases |steps|
  {
    if steps != [] {
      var last := |steps| - 1;
      AccessIsLastGrant(n, s, steps[..last], member);
      RunKeepsSynced(n, s, steps[..last]);
      StepRevises(n, After(n, s, steps[..last]), steps[last], member);
      hide Synced, Take, Revised, EntryOf;
    }
  }

  lemma {:induction false} GatedExactly(n: Node, s: State, steps: seq<Step>)
    requires Synced(n, s)
    ensures After(n, s, steps).policy.Some? <==> Gated(n, s, steps)
    decreases |steps|
  {
    if steps != [] {
      var last := |steps| - 1;
      var before := After(n, s, steps[..last]);
      GatedExactly(n, s, steps[..last]);
      RunKeepsSynced(n, s, steps[..last]);
      StepGates(n, before, steps[last]);
      hide Synced, Take, Installs, CanReopen;
    }
  }

  lemma StepGates(n: Node, s: State, step: Step)
    requires Synced(n, s)
    ensures Take(n, s, step).policy.Some? <==>
            if step.Restart? && CanReopen(s, step.clock) then s.kept.invitation.Some?
            else s.policy.Some? || Installs(n, s, step)
  {
    if step.Restart? {
      RestartExactly(n, s, step.clock);
      if CanReopen(s, step.clock) { RestartClosesExactly(n, s, step.clock); }
      hide Reopen, Synced, CanReopen, Revived;
    } else {
      RunningKeepsGate(n, s, step);
    }
  }

  /**
   * So on every run a node that is up lets everyone do everything when there is no gate, and otherwise
   * each member what its unexpired entry names, or everything when the entry says so.
   */
  lemma AuthorizedExactly(n: Node, s: State, steps: seq<Step>, member: NodeId, permission: string, at: u64)
    requires Synced(n, s)
    ensures Authorized(After(n, s, steps), member, permission, at) <==>
            && After(n, s, steps).up
            && (Gated(n, s, steps) ==>
                  && Standing(n, s, steps, member).Some?
                  && var a := Standing(n, s, steps, member).value;
                  && (a.expiresAt.None? || at < a.expiresAt.value)
                  && ("*" in a.permissions || permission in a.permissions))
  {
    hide After, Standing, Gated;
    AccessIsLastGrant(n, s, steps, member);
    GatedExactly(n, s, steps);
  }

  // ----- What each installation gives -----

  predicate Before(at: u64, expiresAt: Option<u64>) {
    expiresAt.None? || at < expiresAt.value
  }

  /** A certificate that counts for a network, by its own fields. */
  predicate Counts(n: Node, m: Membership, networkId: string, trusted: set<NodeId>, at: u64) {
    m.networkId == networkId && m.issuer in trusted && n.authentic(m) && Before(at, m.expiresAt)
  }

  /** The last certificate of a list that counts and names the member. */
  predicate CountsLast(
    n: Node, networkId: string, certificates: seq<Membership>, trusted: set<NodeId>, at: u64, member: NodeId, i: nat)
  {
    && i < |certificates| && certificates[i].member == member && Counts(n, certificates[i], networkId, trusted, at)
    && forall j | i < j < |certificates| ::
         certificates[j].member != member || !Counts(n, certificates[j], networkId, trusted, at)
  }

  /** What a certificate lets its member do. */
  predicate Covers(m: Membership, permission: string, at: u64) {
    Before(at, m.expiresAt) && ("*" in m.permissions || permission in m.permissions)
  }

  /**
   * Enforcing certificates authorizes a member exactly for what its last certificate that counts covers:
   * of that network, by a trusted issuer, authentic, and unexpired when it was installed.
   */
  lemma EnforcedExactly(
    n: Node, s: State, networkId: string, certificates: seq<Membership>, trusted: set<NodeId>, at: u64,
    member: NodeId, permission: string, when: u64)
    requires s.up
    ensures Authorized(Enforce(n, s, networkId, certificates, trusted, at), member, permission, when) <==>
            exists i: nat :: CountsLast(n, networkId, certificates, trusted, at, member, i)
                             && Covers(certificates[i], permission, when)
  {
    LastCountsIsEntry(n, networkId, certificates, trusted, at, member);
    hide GrantAll, CountsLast;
  }

  lemma {:induction false} LastCountsIsEntry(
    n: Node, networkId: string, certificates: seq<Membership>, trusted: set<NodeId>, at: u64, member: NodeId)
    ensures var granted := GrantAll(n, networkId, certificates, trusted, at);
            && (member in granted ==>
                  exists i: nat :: CountsLast(n, networkId, certificates, trusted, at, member, i))
            && forall i: nat | CountsLast(n, networkId, certificates, trusted, at, member, i) ::
                 && member in granted
                 && granted[member] == Access(certificates[i].permissions, certificates[i].expiresAt)
    decreases |certificates|
  {
    if certificates != [] {
      var last := |certificates| - 1;
      var front := certificates[..last];
      LastCountsIsEntry(n, networkId, front, trusted, at, member);
      OneCertificateMore(n, networkId, certificates, trusted, at, member);
      LastIsWithin(n, networkId, front, trusted, at, member);
      hide CountsLast;
      if certificates[last].member == member && Counts(n, certificates[last], networkId, trusted, at) {
        assert CountsLast(n, networkId, certificates, trusted, at, member, last);
      } else if member in GrantAll(n, networkId, front, trusted, at) {
        var i: nat :| CountsLast(n, networkId, front, trusted, at, member, i);
        assert CountsLast(n, networkId, certificates, trusted, at, member, i);
      }
    }
  }

  lemma LastIsWithin(
    n: Node, networkId: string, certificates: seq<Membership>, trusted: set<NodeId>, at: u64, member: NodeId)
    ensures forall i: nat | CountsLast(n, networkId, certificates, trusted, at, member, i) :: i < |certificates|
  {
  }

  lemma OneCertificateMore(
    n: Node, networkId: string, certificates: seq<Membership>, trusted: set<NodeId>, at: u64, member: NodeId)
    requires certificates != []
    ensures var last := |certificates| - 1;
            var counts := certificates[last].member == member && Counts(n, certificates[last], networkId, trusted, at);
            forall i: nat :: CountsLast(n, networkId, certificates, trusted, at, member, i) <==>
              if counts then i == last else CountsLast(n, networkId, certificates[..last], trusted, at, member, i)
  {
    var last := |certificates| - 1;
    assert forall j | 0 <= j < last :: certificates[..last][j] == certificates[j];
  }

  /**
   * Installing an invitation changes nothing unless it is of version 1, not from the future, for this
   * node, authentic and unexpired; then it authorizes its issuer for everything and this node for what
   * it names, both until it expires, and nobody else.
   */
  lemma InstalledExactly(n: Node, s: State, inv: Invitation, at: u64, who: NodeId, permission: string, when: u64)
    requires s.up
    ensures var m, t := inv.membership, Install(n, s, inv, at, L.Written);
            if inv.version != 1 || inv.issuedAt > at || m.member != n.self || !n.authentic(m)
               || !Before(at, m.expiresAt) then t == s
            else
              && t.kept.invitation == Some(inv)
              && (Authorized(t, who, permission, when) <==>
                  if who == m.issuer then Before(when, m.expiresAt)
                  else who == n.self && Covers(m, permission, when))
  {
    if VerifiesFor(n, inv, at) { ActivatedPolicy(n, s.(kept := s.kept.(invitation := Some(inv))), inv, at); }
    hide Activate, GrantAll;
  }

  /**
   * Issuing a certificate changes nothing unless this node is an unexpired member, the certificate is
   * its own, authentic, unexpired and of the policy's network, its member is not revoked, and there is
   * room; then it authorizes its member for what it names, changes nobody else's access, and is stored.
   */
  lemma IssuedExactly(
    n: Node, s: State, m: Membership, asked: u64, at: u64, who: NodeId, permission: string, when: u64)
    requires s.up && s.policy.Some?
    ensures var t := Take(n, s, Issue(m, asked, at, L.Written));
            var own := EntryOf(s.policy, n.self);
            if && own.Some? && Before(asked, own.value.expiresAt) && m.issuer == n.self && n.authentic(m)
               && Before(at, m.expiresAt) && m.networkId == s.policy.value.networkId && m.member !in s.revoked
               && (Knows(s.issued, m.member) || |s.issued| < MAX_ISSUED_MEMBERSHIPS)
            then
              && m in t.kept.issued && t.kept.issued == t.issued
              && (Authorized(t, who, permission, when) <==>
                  if who == m.member then Covers(m, permission, when) else Authorized(s, who, permission, when))
            else t == s
  {
    PutExactly(s.issued, m);
    hide PutMembership, Knows, DistinctMembers;
  }

  // ----- What the conditions are for -----

  lemma FreshIsSynced(n: Node)
    ensures Synced(n, FRESH)
  {
  }

  lemma AfterOne(n: Node, s: State, a: Step)
    ensures After(n, s, [a]) == Take(n, s, a)
  {
    assert [a][..0] == [];
  }

  lemma AfterTwo(n: Node, s: State, a: Step, b: Step)
    ensures After(n, s, [a, b]) == Take(n, Take(n, s, a), b)
  {
    hide Take;
    assert [a, b][..1] == [a];
    AfterOne(n, s, a);
  }

  lemma TwoKeepSynced(n: Node, s: State, a: Step, b: Step)
    requires Synced(n, s)
    ensures Synced(n, Take(n, s, a)) && Synced(n, Take(n, Take(n, s, a), b))
  {
    hide Synced, Take;
    StepKeepsSynced(n, s, a);
    StepKeepsSynced(n, Take(n, s, a), b);
  }

  /** A block that may be the first of a ledger and revokes a member. */
  predicate Revokes(n: Node, b: K.Block, member: NodeId) {
    Admitted(n, FRESH, b, true) && LastWord(b.events, member) == Some(true)
  }

  lemma FirstBlockRevokes(n: Node, s: State, b: K.Block, member: NodeId)
    requires s.up && s.ledger == FRESH.ledger && Revokes(n, b, member)
    ensures var t := Take(n, s, Append(b, true, L.Written));
            && t == ApplyChanges(s.(ledger := L.Files([b], [])), ChangesOf(b.events))
            && member in t.revoked && ShutOut(t)
  {
    LastEventWins(s.revoked, b.events, member);
    hide Apply, ChangesOf, LastWord, L.Codec.Follows;
    assert FRESH.ledger.blocks + [b] == [b];
  }

  /**
   * The gate that certificates put up is not stored: a revoked member is kept out until the next
   * restart, which lets everyone in.
   */
  lemma RestartReadmitsRevoked(
    n: Node, m: Membership, at: u64, b: K.Block, clock: nat -> u64, who: NodeId, permission: string, when: u64)
    requires Revokes(n, b, m.member)
    ensures var run := [Certify(m.networkId, [m], {m.issuer}, at), Append(b, true, L.Written)];
            var s := After(n, FRESH, run);
            var t := Take(n, s, Restart(clock));
            && Closed(s) && !Authorized(s, m.member, permission, when)
            && m.member in t.revoked && Authorized(t, who, permission, when)
  {
    var certify, block := Certify(m.networkId, [m], {m.issuer}, at), Append(b, true, L.Written);
    AfterTwo(n, FRESH, certify, block);
    FreshIsSynced(n);
    TwoKeepSynced(n, FRESH, certify, block);
    CertifiedThenRevoked(n, m, at, b);
    var s := Take(n, Take(n, FRESH, certify), block);
    hide Take, After, Synced, Revokes;
    RestartUngated(n, s, clock, b);
  }

  lemma CertifiedThenRevoked(n: Node, m: Membership, at: u64, b: K.Block)
    requires Revokes(n, b, m.member)
    ensures var s := Take(n, Take(n, FRESH, Certify(m.networkId, [m], {m.issuer}, at)), Append(b, true, L.Written));
            && Closed(s) && m.member in s.revoked && s.kept == Kept([], None) && s.ledger == L.Files([b], [])
  {
    hide GrantAll, Apply, ChangesOf, Revokes;
    FirstBlockRevokes(n, Take(n, FRESH, Certify(m.networkId, [m], {m.issuer}, at)), b, m.member);
  }

  lemma RestartUngated(n: Node, s: State, clock: nat -> u64, b: K.Block)
    requires Synced(n, s) && s.kept == Kept([], None) && s.ledger == L.Files([b], [])
    ensures var t := Take(n, s, Restart(clock));
            t.revoked == s.revoked && forall who, permission, at :: Authorized(t, who, permission, at)
  {
    assert L.Reopened(s.ledger) == Some([b]) && EventsOf([]) == [] && ChangesOf([]) == [];
    RestartExactly(n, s, clock);
    RestartClosesExactly(n, s, clock);
    hide Synced, Reopen;
  }

  /**
   * An issuer that the ledger revokes loses its access, and regains every permission when its
   * invitation is installed again.
   */
  lemma RevokedIssuerReadmitted(n: Node, inv: Invitation, at: u64, b: K.Block, permission: string, when: u64)
    requires VerifiesFor(n, inv, at) && Unexpired(inv.membership, when) && Revokes(n, b, inv.membership.issuer)
    ensures var issuer, invite := inv.membership.issuer, Invite(inv, at, L.Written);
            var s := After(n, FRESH, [invite, Append(b, true, L.Written)]);
            var t := Take(n, s, invite);
            && issuer in s.revoked && !Authorized(s, issuer, permission, when)
            && issuer in t.revoked && Authorized(t, issuer, permission, when)
  {
    var issuer, invite, block := inv.membership.issuer, Invite(inv, at, L.Written), Append(b, true, L.Written);
    AfterTwo(n, FRESH, invite, block);
    ActivatedPolicy(n, FRESH.(kept := Kept([], Some(inv))), inv, at);
    var seated := Take(n, FRESH, invite);
    FirstBlockRevokes(n, seated, b, issuer);
    var s := Take(n, seated, block);
    ActivatedPolicy(n, s.(kept := Kept([], Some(inv))), inv, at);
    hide Apply, ChangesOf, GrantAll, AppendBlock, Revokes;
  }

  /** So does a revoked member whose certificate is enforced again. */
  lemma ReinstalledCertificateReadmits(n: Node, m: Membership, at: u64, b: K.Block, permission: string)
    requires Verifies(n, m, {m.issuer}, at) && "*" in m.permissions && Revokes(n, b, m.member)
    ensures var certify := Certify(m.networkId, [m], {m.issuer}, at);
            var s := After(n, FRESH, [certify, Append(b, true, L.Written)]);
            var t := Take(n, s, certify);
            && m.member in s.revoked && !Authorized(s, m.member, permission, at)
            && m.member in t.revoked && Authorized(t, m.member, permission, at)
  {
    var certify, block := Certify(m.networkId, [m], {m.issuer}, at), Append(b, true, L.Written);
    AfterTwo(n, FRESH, certify, block);
    assert [m][..0] == [];
    assert GrantAll(n, m.networkId, [m], {m.issuer}, at) == map[m.member := AccessOf(m)];
    FirstBlockRevokes(n, Take(n, FRESH, certify), b, m.member);
    hide Apply, ChangesOf, GrantAll, AppendBlock, Revokes;
  }

  /** An issued certificate that has expired stops every later restart, though the node was running. */
  lemma ExpiredCertificateStopsRestart(n: Node, inv: Invitation, m: Membership, at: u64, clock: nat -> u64)
    requires VerifiesFor(n, inv, at)
    requires m.issuer == n.self && m.networkId == inv.membership.networkId && Verifies(n, m, {n.self}, at)
    requires m.expiresAt.Some? && m.expiresAt.value <= clock(1)
    ensures var run := [Invite(inv, at, L.Written), Issue(m, at, at, L.Written)];
            After(n, FRESH, run).up && Reopen(n, After(n, FRESH, run), clock) == None
  {
    var invite, issue := Invite(inv, at, L.Written), Issue(m, at, at, L.Written);
    AfterTwo(n, FRESH, invite, issue);
    FreshIsSynced(n);
    TwoKeepSynced(n, FRESH, invite, issue);
    SeatedByInvitation(n, inv, m, at);
    var t := Take(n, Take(n, FRESH, invite), issue);
    RestartExactly(n, t, clock);
    assert t.kept.issued == [m] && !Unexpired(t.kept.issued[0], clock(0 + 1));
  }

  lemma SeatedByInvitation(n: Node, inv: Invitation, m: Membership, at: u64)
    requires VerifiesFor(n, inv, at)
    requires m.issuer == n.self && m.networkId == inv.membership.networkId && Verifies(n, m, {n.self}, at)
    ensures var s := Take(n, FRESH, Invite(inv, at, L.Written));
            s.up && s.kept == Kept([], Some(inv)) && s.issued == [] && HasMembership(n, s, at) && Registers(n, s, m, at)
  {
    ActivatedPolicy(n, FRESH.(kept := Kept([], Some(inv))), inv, at);
  }

  // ----- What failed writes leave behind -----

  /** A running node knows the certificates its file holds, unless issuing one fails after the file is replaced. */
  lemma IssuedIsKeptExactly(n: Node, s: State, step: Step)
    requires Synced(n, s) && s.up && s.kept.issued == s.issued
    ensures var t := Take(n, s, step);
            t.kept.issued == t.issued <==>
            !(&& step.Issue? && HasMembership(n, s, step.asked) && Registers(n, s, step.m, step.at)
              && step.disk == L.WrittenThenFailed && PutMembership(s.issued, step.m) != s.issued)
  {
    hide Synced, Reopen, CanReopen, Registers, PutMembership, HasMembership, Admitted, Lands, L.TryAppend, OwnRecord;
    hide VerifiesFor, GrantAll, Apply, ChangesOf, ReplayedSet, Rebuilt;
    if step.Restart? {
      RestartExactly(n, s, step.clock);
    } else if !step.Issue? {
      OnlyIssuingKeeps(n, s, step);
    }
  }

  lemma OnlyIssuingKeeps(n: Node, s: State, step: Step)
    requires !step.Issue? && !step.Restart?
    ensures Take(n, s, step).issued == s.issued && Take(n, s, step).kept.issued == s.kept.issued
  {
    hide Admitted, Lands, L.TryAppend, OwnRecord, VerifiesFor, GrantAll, Apply, ChangesOf;
  }

  /** A member whose certificate was not issued, by the error the caller got, is admitted by the next restart. */
  lemma FailedIssueAdmitsOnRestart(
    n: Node, inv: Invitation, m: Membership, at: u64, clock: nat -> u64, permission: string)
    requires VerifiesFor(n, inv, at) && m.member != n.self && m.member != inv.membership.issuer
    requires m.issuer == n.self && m.networkId == inv.membership.networkId && Verifies(n, m, {n.self}, at)
    requires inv.issuedAt <= clock(0) && Unexpired(inv.membership, clock(0)) && Unexpired(m, clock(1))
    requires permission in m.permissions
    ensures var s := After(n, FRESH, [Invite(inv, at, L.Written), Issue(m, at, at, L.WrittenThenFailed)]);
            !Authorized(s, m.member, permission, at) && Authorized(Take(n, s, Restart(clock)), m.member, permission, at)
  {
    var invite, issue := Invite(inv, at, L.Written), Issue(m, at, at, L.WrittenThenFailed);
    AfterTwo(n, FRESH, invite, issue);
    FreshIsSynced(n);
    TwoKeepSynced(n, FRESH, invite, issue);
    FailedIssue(n, inv, m, at);
    var s := Take(n, Take(n, FRESH, invite), issue);
    RestartAdmits(n, inv, m, at, clock, permission, s);
    hide Take, After;
  }

  lemma RestartAdmits(
    n: Node, inv: Invitation, m: Membership, at: u64, clock: nat -> u64, permission: string, s: State)
    requires Synced(n, s) && s.ledger == FRESH.ledger && s.kept == Kept([m], Some(inv))
    requires inv.issuedAt <= clock(0) && Unexpired(inv.membership, clock(0)) && Unexpired(m, clock(1))
    requires m.networkId == inv.membership.networkId && Unexpired(m, at) && permission in m.permissions
    ensures Authorized(Take(n, s, Restart(clock)), m.member, permission, at)
  {
    assert CanSeat(s.kept, clock) && s.ledger.blocks + s.ledger.orphans == [];
    RestartExactly(n, s, clock);
    RestartRevises(n, s, clock, m.member);
    assert CertificateOf([m], m.member) == Some(m);
    hide Synced, Reopen, Rebuilt, ReplayedSet;
  }

  lemma FailedIssue(n: Node, inv: Invitation, m: Membership, at: u64)
    requires VerifiesFor(n, inv, at) && m.member != n.self && m.member != inv.membership.issuer
    requires m.issuer == n.self && m.networkId == inv.membership.networkId && Verifies(n, m, {n.self}, at)
    ensures var s := Take(n, Take(n, FRESH, Invite(inv, at, L.Written)), Issue(m, at, at, L.WrittenThenFailed));
            && s.ledger == FRESH.ledger && s.kept == Kept([m], Some(inv))
            && s.policy.Some? && m.member !in s.policy.value.permissions
  {
    SeatedByInvitation(n, inv, m, at);
    ActivatedPolicy(n, FRESH.(kept := Kept([], Some(inv))), inv, at);
    hide Registers, HasMembership, VerifiesFor, Verifies, Activate;
  }

  /** An append that fails after its file is written; nothing in memory changes. */
  lemma OrphanLeft(n: Node, s: State, b: K.Block)
    requires Synced(n, s) && s.up && s.ledger.orphans == [] && Admitted(n, s, b, true)
    ensures var t := Take(n, s, Append(b, true, L.WrittenThenFailed));
            && t == s.(ledger := L.Files(s.ledger.blocks, [b])) && Synced(n, t)
            && b.proposal.height == |t.ledger.blocks|
            && L.Reopened(t.ledger) == Some(s.ledger.blocks + [b])
  {
    StepKeepsSynced(n, s, Append(b, true, L.WrittenThenFailed));
    hide Synced, Apply, ChangesOf;
    assert s.ledger.orphans + [b] == [b];
  }

  /** A member whom such a block revokes keeps its standing while the node runs, and is revoked by the restart. */
  lemma OrphanRevokesOnRestart(n: Node, s: State, b: K.Block, member: NodeId, clock: nat -> u64)
    requires Synced(n, s) && s.up && s.ledger.orphans == [] && CanReopen(s, clock)
    requires Admitted(n, s, b, true) && L.OneNetwork(s.ledger.blocks + [b])
    requires member !in s.revoked && LastWord(b.events, member) == Some(true)
    ensures var t := Take(n, s, Append(b, true, L.WrittenThenFailed));
            && t.revoked == s.revoked && t.policy == s.policy
            && Reopen(n, t, clock).Some? && member in Reopen(n, t, clock).value.revoked
  {
    var t := Take(n, s, Append(b, true, L.WrittenThenFailed));
    OrphanLeft(n, s, b);
    RestartExactly(n, t, clock);
    EventsMore([], b);
    assert [] + [b] == [b] && EventsOf([b]) == b.events;
    LastEventWins(t.revoked, b.events, member);
    hide Synced, Reopen, Take, Apply, ChangesOf, LastWord, EventsOf, L.OneNetwork, CanSeat, Admitted;
  }

  /** Once another block of that height is written as well, the node never starts again. */
  lemma OrphanThenBlockStopsRestart(
    n: Node, s: State, b: K.Block, other: K.Block, disk: L.Disk, steps: seq<Step>, clock: nat -> u64)
    requires Synced(n, s) && s.up && s.ledger.orphans == [] && Admitted(n, s, b, true) && Admitted(n, s, other, true)
    requires L.NameOf(n.codec, b) != L.NameOf(n.codec, other) && disk != L.NotWritten
    ensures var t := Take(n, Take(n, s, Append(b, true, L.WrittenThenFailed)), Append(other, true, disk));
            Reopen(n, After(n, t, steps), clock) == None
  {
    var orphaned := Take(n, s, Append(b, true, L.WrittenThenFailed));
    OrphanLeft(n, s, b);
    var t := Take(n, orphaned, Append(other, true, disk));
    SecondOfOneHeight(n, orphaned, other, disk);
    StepKeepsSynced(n, orphaned, Append(other, true, disk));
    hide Synced, Take, Admitted, FoundChain;
    UnopenableStays(n, t, steps);
  }

  lemma SecondOfOneHeight(n: Node, s: State, other: K.Block, disk: L.Disk)
    requires s.up && |s.ledger.orphans| == 1 && s.ledger.orphans[0].proposal.height == |s.ledger.blocks|
    requires Admitted(n, s, other, true) && disk != L.NotWritten
    requires L.NameOf(n.codec, s.ledger.orphans[0]) != L.NameOf(n.codec, other)
    ensures FoundChain(Take(n, s, Append(other, true, disk))) == None
  {
    hide Apply, ChangesOf, L.NameOf, L.Codec.Follows;
    assert !L.NameTaken(n.codec, s.ledger, other);
  }

  /** One completed task and one block of another network stop every later restart too. */
  lemma TaskAndBlockStopRestart(n: Node, record: K.Block, b: K.Block, steps: seq<Step>, clock: nat -> u64)
    requires OwnRecord(record) && Admitted(n, FRESH, record, true) && b.networkId != LOCAL_NETWORK
    requires Admitted(n, FRESH.(ledger := L.Files([record], [])), b, true)
    ensures var run := [Record(record, true, L.Written), Append(b, true, L.Written)];
            Reopen(n, After(n, After(n, FRESH, run), steps), clock) == None
  {
    var first, second := Record(record, true, L.Written), Append(b, true, L.Written);
    AfterTwo(n, FRESH, first, second);
    FreshIsSynced(n);
    TwoKeepSynced(n, FRESH, first, second);
    MixedLedger(n, record, b);
    var s := Take(n, Take(n, FRESH, first), second);
    hide Synced, Take, Admitted, FoundChain;
    UnopenableStays(n, s, steps);
  }

  lemma MixedLedger(n: Node, record: K.Block, b: K.Block)
    requires OwnRecord(record) && Admitted(n, FRESH, record, true) && b.networkId != LOCAL_NETWORK
    requires Admitted(n, FRESH.(ledger := L.Files([record], [])), b, true)
    ensures FoundChain(Take(n, Take(n, FRESH, Record(record, true, L.Written)), Append(b, true, L.Written))) == None
  {
    hide Apply, ChangesOf, L.Codec.Follows;
    assert FRESH.ledger.blocks + [record] == [record];
    var s := Take(n, FRESH, Record(record, true, L.Written));
    assert s == FRESH.(ledger := L.Files([record], []));
    var found := [record] + [b];
    assert Take(n, s, Append(b, true, L.Written)).ledger == L.Files(found, []);
    assert found[1].networkId != found[0].networkId;
  }
}
