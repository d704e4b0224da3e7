/**
 * The executor's task table: offers reserve the single slot, commits run the task, cancels release
 * it. Each handled message is one atomic step; runs interleave messages of any signers.
 */
module Tasks {
  import opened Common
  import opened Protocol
  import MapSums

  const MAX_CONCURRENT_TASKS: nat := 1
  const HOST_MEMORY_RESERVE: u64 := 1024 * 1024 * 1024
  const DEFAULT_TASK_MEMORY_LIMIT: u64 := 64 * 1024 * 1024
  const MAX_TASK_MEMORY_LIMIT: u64 := 512 * 1024 * 1024
  const CAPABILITY_LIFETIME: nat := 30_000

  datatype PendingTask = PendingTask(task: Task, requester: NodeId, leaseExpiresAt: u64, running: bool)

  datatype CompletedTask = CompletedTask(task: Task, requester: NodeId, result: SignedExecutionRecord)

  type Pending = map<string, PendingTask>

  datatype Table = Table(pending: Pending, completed: map<string, CompletedTask>)

  // ----- Capacity -----

  /** The host as measured when an offer is considered; `cpuOk` stands for the floating-point checks. */
  datatype Host = Host(availableMemory: u64, availableStorage: u64, cpuOk: bool)

  function TaskMemoryLimit(task: Task): Option<u64> {
    var declared := task.requirements.minimumMemory;
    var limit := if declared < DEFAULT_TASK_MEMORY_LIMIT then DEFAULT_TASK_MEMORY_LIMIT else declared;
    if limit <= MAX_TASK_MEMORY_LIMIT then Some(limit) else None
  }

  predicate Live(p: PendingTask, at: u64) {
    p.running || (p.leaseExpiresAt > at && (p.task.deadline.None? || p.task.deadline.value > at))
  }

  function Prune(pending: Pending, at: u64): Pending {
    map id | id in pending && Live(pending[id], at) :: pending[id]
  }

  function Limits(pending: Pending): map<string, nat> {
    map id | id in pending ::
      if TaskMemoryLimit(pending[id].task).Some? then TaskMemoryLimit(pending[id].task).value else 0
  }

  /** Subtracts the host reserve and the promised memory, never below zero. */
  function FreeMemory(host: Host, reserved: nat): nat {
    var spare := SaturatingSub(host.availableMemory, HOST_MEMORY_RESERVE);
    if spare <= reserved then 0 else spare - reserved
  }

  predicate Eligible(task: Task, host: Host, reserved: nat, occupied: nat, measuredAt: u64, now: u64) {
    && measuredAt + CAPABILITY_LIFETIME > now
    && host.cpuOk
    && TaskMemoryLimit(task).Some? && FreeMemory(host, reserved) >= TaskMemoryLimit(task).value
    && host.availableStorage >= task.requirements.minimumStorage
    && task.requirements.runtime in ["wasmtime-component-v1", "wasmtime-bytes-v1"]
    && occupied < MAX_CONCURRENT_TASKS
    && (task.deadline.None? || task.deadline.value > now)
  }

  // ----- Steps -----

  /** What an offer meets: the clock at each reading, the stored content, the host and the metadata store. */
  datatype OfferContext = OfferContext(
    receivedAt: u64, observedAt: u64, measuredAt: u64, stored: set<ContentId>, host: Host, metadataOk: bool)

  /** A run either fails before a result exists, or yields one; `recorded` tells whether ledger and metadata took it. */
  datatype Outcome =
    | Fails
    | Yields(output: ContentId, executionHash: ContentId, publicKey: Bytes, signature: Bytes, recorded: bool)

  datatype CommitContext = CommitContext(
    leaseCheckedAt: u64, deadlineCheckedAt: u64, startedAt: u64, completedAt: u64, executor: NodeId, outcome: Outcome)

  datatype Step =
    | Offer(signer: NodeId, task: Task, requester: NodeId, expiresAt: u64, seen: OfferContext)
    | Commit(signer: NodeId, taskId: string, run: CommitContext)
    | Cancel(signer: NodeId, taskId: string)
    | Measure(at: u64)

  datatype Reply = Accept | Reject | Failure | Result(record: SignedExecutionRecord) | Cancelled | NoReply

  predicate WellFormedOffer(s: Step)
    requires s.Offer?
  {
    && s.task.taskId != "" && s.requester == s.signer && s.expiresAt > s.seen.receivedAt
    && s.task.component in s.seen.stored && s.task.input in s.seen.stored
  }

  ghost predicate HasRoom(pending: Pending, s: Step)
    requires s.Offer?
  {
    && Eligible(s.task, s.seen.host, MapSums.Sum(Limits(pending)), |pending|, s.seen.measuredAt, s.seen.observedAt)
    && |pending| < MAX_CONCURRENT_TASKS
  }

  ghost function TakeOffer(t: Table, s: Step): (Table, Reply)
    requires s.Offer?
  {
    var id := s.task.taskId;
    if !WellFormedOffer(s) then (t, Reject)
    else if id in t.completed then
      (t, if t.completed[id].requester == s.requester && t.completed[id].task == s.task then Accept else Reject)
    else
      var pending := Prune(t.pending, s.seen.measuredAt);
      var pruned := t.(pending := pending);
      if id in pending then
        (pruned, if pending[id].requester == s.requester && pending[id].task == s.task then Accept else Reject)
      else if !HasRoom(pending, s) then (pruned, Reject)
      else
        (t.(pending := pending[id := PendingTask(s.task, s.requester, s.expiresAt, false)]),
         if s.seen.metadataOk then Accept else Failure)
  }

  function ResultOf(task: Task, run: CommitContext): SignedExecutionRecord
    requires run.outcome.Yields?
  {
    var record := ExecutionRecord(task.taskId, run.executor, task.component, task.input, run.outcome.output,
                                  run.outcome.executionHash, run.startedAt, run.completedAt);
    SignedExecutionRecord(record, run.executor, run.outcome.publicKey, run.outcome.signature)
  }

  predicate LeaseOver(p: PendingTask, run: CommitContext) {
    p.leaseExpiresAt <= run.leaseCheckedAt || (p.task.deadline.Some? && p.task.deadline.value <= run.deadlineCheckedAt)
  }

  function TakeCommit(t: Table, s: Step): (Table, Reply)
    requires s.Commit?
  {
    var id := s.taskId;
    if id in t.completed then
      (t, if t.completed[id].requester == s.signer then Result(t.completed[id].result) else Failure)
    else if id !in t.pending then (t, Failure)
    else
      var p := t.pending[id];
      if p.requester != s.signer then (t, Failure)
      else if LeaseOver(p, s.run) then (t.(pending := t.pending - {id}), Failure)
      else if p.running then (t, Failure)
      else
        match s.run.outcome
        case Fails => (t.(pending := t.pending - {id}), Failure)
        case Yields(_, _, _, _, recorded) =>
          var result := ResultOf(p.task, s.run);
          (Table(t.pending - {id}, t.completed[id := CompletedTask(p.task, s.signer, result)]),
           if recorded then Result(result) else Failure)
  }

  function TakeCancel(t: Table, s: Step): (Table, Reply)
    requires s.Cancel?
  {
    if s.taskId in t.pending && t.pending[s.taskId].requester == s.signer && !t.pending[s.taskId].running
    then (t.(pending := t.pending - {s.taskId}), Cancelled)
    else (t, Failure)
  }

  ghost function Take(t: Table, s: Step): (Table, Reply) {
    match s
    case Offer(_, _, _, _, _) => TakeOffer(t, s)
    case Commit(_, _, _) => TakeCommit(t, s)
    case Cancel(_, _) => TakeCancel(t, s)
    case Measure(at) => (t.(pending := Prune(t.pending, at)), NoReply)
  }

  // ----- What every step keeps -----

  /** One reservation at most, none running between messages, and no id both reserved and completed. */
  predicate Safe(t: Table) {
    && |t.pending| <= MAX_CONCURRENT_TASKS
    && t.pending.Keys !! t.completed.Keys
    && (forall id | id in t.pending :: t.pending[id].task.taskId == id && !t.pending[id].running)
    && (forall id | id in t.completed :: Consistent(id, t.completed[id]))
  }

  /** A completed result names the very task, component and input it was reserved for. */
  predicate Consistent(id: string, c: CompletedTask) {
    && c.task.taskId == id && c.result.record.taskId == id
    && c.result.record.component == c.task.component && c.result.record.input == c.task.input
  }

  lemma PruneShrinks(pending: Pending, at: u64)
    ensures |Prune(pending, at)| <= |pending|
  {
    var left := Prune(pending, at);
    assert left.Keys <= pending.Keys;
    SubsetSize(left.Keys, pending.Keys);
    assert |left| == |left.Keys| && |pending| == |pending.Keys|;
  }

  lemma RemoveShrinks(pending: Pending, id: string)
    ensures |pending - {id}| <= |pending|
  {
    assert (pending - {id}).Keys <= pending.Keys;
    SubsetSize((pending - {id}).Keys, pending.Keys);
    assert |pending - {id}| == |(pending - {id}).Keys| && |pending| == |pending.Keys|;
  }

  lemma MarkAndRemove(pending: Pending, id: string, p: PendingTask)
    ensures pending[id := p] - {id} == pending - {id}
  {
  }

  lemma InsertGrows(pending: Pending, id: string, p: PendingTask)
    requires id !in pending
    ensures |pending[id := p]| == |pending| + 1
  {
    assert pending[id := p].Keys == pending.Keys + {id};
    assert |pending[id := p]| == |pending[id := p].Keys| && |pending| == |pending.Keys|;
  }

  lemma RemoveKeepsSafe(t: Table, id: string)
    requires Safe(t)
    ensures Safe(t.(pending := t.pending - {id}))
  {
    RemoveShrinks(t.pending, id);
  }

  lemma CompleteKeepsSafe(t: Table, id: string, c: CompletedTask)
    requires Safe(t) && Consistent(id, c)
    ensures Safe(Table(t.pending - {id}, t.completed[id := c]))
  {
    hide Consistent;
    RemoveShrinks(t.pending, id);
  }

  /** Completed results never change and never disappear. */
  predicate Retains(before: Table, after: Table) {
    forall id | id in before.completed :: id in after.completed && after.completed[id] == before.completed[id]
  }

  lemma MeasureKeepsSafe(t: Table, at: u64)
    requires Safe(t)
    ensures Safe(t.(pending := Prune(t.pending, at)))
  {
    PruneShrinks(t.pending, at);
  }

  lemma ReserveKeepsSafe(t: Table, p: PendingTask)
    requires Safe(t) && |t.pending| == 0 && p.task.taskId !in t.completed && !p.running
    ensures Safe(t.(pending := t.pending[p.task.taskId := p]))
  {
    hide Consistent;
    InsertGrows(t.pending, p.task.taskId, p);
  }

  lemma HasRoomMeansEmpty(t: Table, s: Step)
    requires s.Offer?
    ensures HasRoom(Prune(t.pending, s.seen.measuredAt), s) ==> |Prune(t.pending, s.seen.measuredAt)| == 0
  {
    hide Eligible;
  }

  /**
   * An offer keeps the table safe. A reservation it finds standing it leaves as it is, and it makes
   * one of its own only when none stands and the id is not completed.
   */
  lemma OfferKeepsSafe(t: Table, s: Step)
    requires Safe(t) && s.Offer?
    ensures Safe(TakeOffer(t, s).0) && TakeOffer(t, s).0.completed == t.completed
    ensures ReservesWhenFree(t, s, TakeOffer(t, s).0.pending)
  {
    hide HasRoom, WellFormedOffer, Safe, Prune, ReservesWhenFree;
    var id, pending := s.task.taskId, Prune(t.pending, s.seen.measuredAt);
    MeasureKeepsSafe(t, s.seen.measuredAt);
    HasRoomMeansEmpty(t, s);
    if HasRoom(pending, s) && id !in t.completed {
      ReserveKeepsSafe(t.(pending := pending), PendingTask(s.task, s.requester, s.expiresAt, false));
    }
    OfferReservesWhenFree(t, s);
  }

  predicate ReservesWhenFree(t: Table, s: Step, after: Pending)
    requires s.Offer?
  {
    forall id | id in after && !(id in t.pending && after[id] == t.pending[id]) ::
      && id == s.task.taskId && after[id] == PendingTask(s.task, s.requester, s.expiresAt, false)
      && id !in t.completed && forall other | other in t.pending :: !Live(t.pending[other], s.seen.measuredAt)
  }

  lemma OfferReservesWhenFree(t: Table, s: Step)
    requires s.Offer?
    ensures ReservesWhenFree(t, s, TakeOffer(t, s).0.pending)
  {
    hide HasRoom, WellFormedOffer, Prune;
    var at := s.seen.measuredAt;
    HasRoomMeansEmpty(t, s);
    PruneKeepsLive(t.pending, at);
    if HasRoom(Prune(t.pending, at), s) {
      assert Prune(t.pending, at) == map[];
    }
  }

  lemma PruneKeepsLive(pending: Pending, at: u64)
    ensures forall id | id in Prune(pending, at) :: id in pending && Prune(pending, at)[id] == pending[id]
    ensures forall id | id in pending && Live(pending[id], at) :: id in Prune(pending, at)
  {
  }

  /**
   * A commit keeps the table safe and frees no other reservation than its own. It adds at most one
   * result, for the task its signer had reserved, and that reservation is then gone.
   */
  lemma CommitKeepsSafe(t: Table, s: Step)
    requires Safe(t) && s.Commit?
    ensures Safe(TakeCommit(t, s).0) && Retains(t, TakeCommit(t, s).0)
    ensures TouchesOne(t, s, TakeCommit(t, s).0)
  {
    CommitTouchesOne(t, s);
    var id := s.taskId;
    RemoveKeepsSafe(t, id);
    if id in t.pending && s.run.outcome.Yields? {
      CompleteKeepsSafe(t, id, CompletedTask(t.pending[id].task, s.signer, ResultOf(t.pending[id].task, s.run)));
    }
    hide TouchesOne, LeaseOver, Safe;
  }

  predicate TouchesOne(t: Table, s: Step, after: Table)
    requires s.Commit?
  {
    var id := s.taskId;
    && (after.pending == t.pending || after.pending == t.pending - {id})
    && (after.completed == t.completed
        || (&& id in t.pending && t.pending[id].requester == s.signer && !LeaseOver(t.pending[id], s.run)
            && after.completed.Keys == t.completed.Keys + {id} && after.pending == t.pending - {id}
            && after.completed[id].task == t.pending[id].task && after.completed[id].requester == s.signer))
  }

  lemma CommitTouchesOne(t: Table, s: Step)
    requires s.Commit?
    ensures TouchesOne(t, s, TakeCommit(t, s).0)
  {
  }

  lemma CancelKeepsSafe(t: Table, s: Step)
    requires Safe(t) && s.Cancel?
    ensures Safe(TakeCancel(t, s).0) && TakeCancel(t, s).0.completed == t.completed
  {
    RemoveKeepsSafe(t, s.taskId);
  }

  /** Every message, from anyone, at any clock, keeps the table safe and every completed result as it is. */
  lemma StepKeepsSafe(t: Table, s: Step)
    requires Safe(t)
    ensures Safe(Take(t, s).0) && Retains(t, Take(t, s).0)
  {
    hide Safe, TakeOffer, TakeCommit, TakeCancel, Prune;
    match s {
      case Offer(_, _, _, _, _) => OfferKeepsSafe(t, s);
      case Commit(_, _, _) => CommitKeepsSafe(t, s);
      case Cancel(_, _) => CancelKeepsSafe(t, s);
      case Measure(at) => MeasureKeepsSafe(t, at);
    }
  }

  // ----- Runs -----

  ghost function After(t: Table, steps: seq<Step>): Table {
    if steps == [] then t else Take(After(t, steps[..|steps| - 1]), steps[|steps| - 1]).0
  }

  ghost function ReplyAt(t: Table, steps: seq<Step>, k: nat): Reply
    requires k < |steps|
  {
    Take(After(t, steps[..k]), steps[k]).1
  }

  lemma AfterStep(t: Table, steps: seq<Step>, k: nat)
    requires k < |steps|
    ensures After(t, steps[..k + 1]) == Take(After(t, steps[..k]), steps[k]).0
  {
    assert steps[..k + 1][..k] == steps[..k];
  }

  lemma {:induction false} RunKeepsSafe(t: Table, steps: seq<Step>, k: nat)
    requires Safe(t) && k <= |steps|
    ensures Safe(After(t, steps[..k]))
    decreases k
  {
    hide Safe, Take;
    if k > 0 {
      AfterStep(t, steps, k - 1);
      RunKeepsSafe(t, steps, k - 1);
      StepKeepsSafe(After(t, steps[..k - 1]), steps[k - 1]);
    }
  }

  /** Between any two points of a run, completed results only accumulate. */
  lemma {:induction false} RunRetains(t: Table, steps: seq<Step>, i: nat, j: nat)
    requires Safe(t) && i <= j <= |steps|
    ensures Retains(After(t, steps[..i]), After(t, steps[..j]))
    decreases j
  {
    hide Safe, Take;
    if i < j {
      AfterStep(t, steps, j - 1);
      RunRetains(t, steps, i, j - 1);
      RunKeepsSafe(t, steps, j - 1);
      StepKeepsSafe(After(t, steps[..j - 1]), steps[j - 1]);
    }
  }

  /** A step that produces the result of a task. */
  ghost predicate CompletesAt(t: Table, steps: seq<Step>, k: nat, id: string)
    requires k < |steps|
  {
    id !in After(t, steps[..k]).completed && id in After(t, steps[..k + 1]).completed
  }

  /** A task id completes at most once in a run. */
  lemma CompletesAtMostOnce(t: Table, steps: seq<Step>, i: nat, j: nat, id: string)
    requires Safe(t) && i < j < |steps| && CompletesAt(t, steps, i, id)
    ensures !CompletesAt(t, steps, j, id)
  {
    RunRetains(t, steps, i + 1, j);
  }

  /** A result handed out is the one stored, then and ever after. */
  lemma ResultIsStored(t: Table, steps: seq<Step>, k: nat)
    requires Safe(t) && k < |steps| && steps[k].Commit? && ReplyAt(t, steps, k).Result?
    ensures var after, id := After(t, steps[..k + 1]), steps[k].taskId;
            id in after.completed && after.completed[id].result == ReplyAt(t, steps, k).record
            && after.completed[id].requester == steps[k].signer
  {
    AfterStep(t, steps, k);
  }

  /** All results ever handed out for one task id are the same record. */
  lemma OneResultPerTask(t: Table, steps: seq<Step>, i: nat, j: nat)
    requires Safe(t) && i <= j < |steps| && steps[i].Commit? && steps[j].Commit? && steps[i].taskId == steps[j].taskId
    requires ReplyAt(t, steps, i).Result? && ReplyAt(t, steps, j).Result?
    ensures ReplyAt(t, steps, i) == ReplyAt(t, steps, j) && steps[i].signer == steps[j].signer
  {
    ResultIsStored(t, steps, i);
    ResultIsStored(t, steps, j);
    RunRetains(t, steps, i + 1, j + 1);
  }

  // ----- Where results come from -----

  /** The step reserves the slot for its task. */
  ghost predicate ReservesAt(t: Table, steps: seq<Step>, k: nat)
    requires k < |steps|
  {
    Reserves(After(t, steps[..k]), steps[k])
  }

  /** Some earlier offer of this very requester reserved this very task. */
  ghost predicate OfferedBy(t: Table, steps: seq<Step>, k: nat, task: Task, requester: NodeId)
    requires k <= |steps|
  {
    exists j :: 0 <= j < k && ReservesAt(t, steps, j) && steps[j].task == task && steps[j].signer == requester
  }

  /** Everything reserved or completed in this process life goes back to an offer. */
  ghost predicate Sourced(t: Table, steps: seq<Step>, k: nat)
    requires k <= |steps|
  {
    var now := After(t, steps[..k]);
    && (forall id | id in now.pending :: OfferedBy(t, steps, k, now.pending[id].task, now.pending[id].requester))
    && (forall id | id in now.completed ::
          (id in t.completed && t.completed[id] == now.completed[id])
          || OfferedBy(t, steps, k, now.completed[id].task, now.completed[id].requester))
  }

  /** The offer reserves the slot when it arrives at `t`. */
  ghost predicate Reserves(t: Table, s: Step) {
    && s.Offer? && WellFormedOffer(s) && s.task.taskId !in t.completed
    && s.task.taskId !in Prune(t.pending, s.seen.measuredAt)
    && HasRoom(Prune(t.pending, s.seen.measuredAt), s)
  }

  /** A reservation after a step was there before, or is the one just offered. */
  lemma PendingStep(t: Table, s: Step, id: string)
    requires id in Take(t, s).0.pending
    ensures var p := Take(t, s).0.pending[id];
            (id in t.pending && p == t.pending[id]) || (Reserves(t, s) && p.task == s.task && p.requester == s.signer)
  {
    hide HasRoom, Live;
  }

  /** A result after a step was there before, or is that of the task reserved under its id. */
  lemma CompletedStep(t: Table, s: Step, id: string)
    requires id in Take(t, s).0.completed
    ensures var c := Take(t, s).0.completed[id];
            (id in t.completed && c == t.completed[id])
            || (id in t.pending && c.task == t.pending[id].task && c.requester == t.pending[id].requester)
  {
    hide HasRoom, Live;
  }

  lemma PendingSources(t: Table, steps: seq<Step>, k: nat, id: string)
    requires k < |steps| && Sourced(t, steps, k) && id in After(t, steps[..k + 1]).pending
    ensures var p := After(t, steps[..k + 1]).pending[id];
            OfferedBy(t, steps, k + 1, p.task, p.requester)
  {
    hide Take, Reserves;
    AfterStep(t, steps, k);
    var before, s := After(t, steps[..k]), steps[k];
    PendingStep(before, s, id);
    var p := After(t, steps[..k + 1]).pending[id];
    if id in before.pending && p == before.pending[id] {
      StillOffered(t, steps, k, p.task, p.requester);
    } else {
      assert ReservesAt(t, steps, k);
    }
  }

  lemma StillOffered(t: Table, steps: seq<Step>, k: nat, task: Task, requester: NodeId)
    requires k < |steps| && OfferedBy(t, steps, k, task, requester)
    ensures OfferedBy(t, steps, k + 1, task, requester)
  {
    hide ReservesAt;
  }

  lemma CompletedSources(t: Table, steps: seq<Step>, k: nat, id: string)
    requires k < |steps| && Sourced(t, steps, k) && id in After(t, steps[..k + 1]).completed
    ensures var c := After(t, steps[..k + 1]).completed[id];
            (id in t.completed && t.completed[id] == c) || OfferedBy(t, steps, k + 1, c.task, c.requester)
  {
    hide Take, ReservesAt;
    AfterStep(t, steps, k);
    var before := After(t, steps[..k]);
    CompletedStep(before, steps[k], id);
    var c := After(t, steps[..k + 1]).completed[id];
    if id in before.completed && c == before.completed[id] {
      if !(id in t.completed && t.completed[id] == c) { StillOffered(t, steps, k, c.task, c.requester); }
    } else {
      StillOffered(t, steps, k, before.pending[id].task, before.pending[id].requester);
    }
  }

  lemma {:induction false} RunSources(t: Table, steps: seq<Step>, k: nat)
    requires t.pending == map[] && k <= |steps|
    ensures Sourced(t, steps, k)
    decreases k
  {
    hide Take, ReservesAt;
    if k > 0 {
      RunSources(t, steps, k - 1);
      forall id | id in After(t, steps[..k]).pending
        ensures var p := After(t, steps[..k]).pending[id]; OfferedBy(t, steps, k, p.task, p.requester)
      {
        PendingSources(t, steps, k - 1, id);
      }
      forall id | id in After(t, steps[..k]).completed
        ensures var d := After(t, steps[..k]).completed[id];
                (id in t.completed && t.completed[id] == d) || OfferedBy(t, steps, k, d.task, d.requester)
      {
        CompletedSources(t, steps, k - 1, id);
      }
    }
  }

  /**
   * A result reaches only the signer whose own offer reserved the task, and names the component and
   * input of that offer; results kept from an earlier process life go to their recorded requester.
   */
  lemma ResultsGoToTheirRequester(t: Table, steps: seq<Step>, k: nat)
    requires Safe(t) && t.pending == map[] && k < |steps| && steps[k].Commit? && ReplyAt(t, steps, k).Result?
    ensures var id, record := steps[k].taskId, ReplyAt(t, steps, k).record.record;
            && record.taskId == id
            && ((id in t.completed && t.completed[id].requester == steps[k].signer
                 && t.completed[id].result == ReplyAt(t, steps, k).record)
                || exists j :: 0 <= j < k && ReservesAt(t, steps, j) && steps[j].signer == steps[k].signer
                               && steps[j].task.taskId == id && steps[j].task.component == record.component
                               && steps[j].task.input == record.input)
  {
    ResultIsStored(t, steps, k);
    RunKeepsSafe(t, steps, k + 1);
    RunSources(t, steps, k + 1);
    var c := After(t, steps[..k + 1]).completed[steps[k].taskId];
    hide After, Take;
    if OfferedBy(t, steps, k + 1, c.task, c.requester) {
      var j :| 0 <= j < k + 1 && ReservesAt(t, steps, j) && steps[j].task == c.task && steps[j].signer == c.requester;
      assert j < k;
    }
  }

  // ----- What holds and what releases a reservation -----

  /** A reservation fits the host next to everything already promised. */
  lemma ReservationFits(t: Table, s: Step)
    requires Reserves(t, s)
    ensures MapSums.Sum(Limits(TakeOffer(t, s).0.pending)) + HOST_MEMORY_RESERVE <= s.seen.host.availableMemory
  {
    var pending := Prune(t.pending, s.seen.measuredAt);
    var p := PendingTask(s.task, s.requester, s.expiresAt, false);
    MapSums.SumStore(Limits(pending), s.task.taskId, TaskMemoryLimit(s.task).value);
    assert Limits(pending[s.task.taskId := p]) == Limits(pending)[s.task.taskId := TaskMemoryLimit(s.task).value];
    hide MapSums.Sum;
  }

  /** Only its own requester or the clock releases a reservation. */
  lemma OnlyRequesterOrClockReleases(t: Table, s: Step, id: string)
    requires Safe(t) && id in t.pending && (id !in Take(t, s).0.pending || Take(t, s).0.pending[id] != t.pending[id])
    ensures match s
            case Offer(_, _, _, _, seen) => !Live(t.pending[id], seen.measuredAt)
            case Commit(signer, taskId, _) => taskId == id && signer == t.pending[id].requester
            case Cancel(signer, taskId) => taskId == id && signer == t.pending[id].requester
            case Measure(at) => !Live(t.pending[id], at)
  {
    hide HasRoom;
  }

  // ----- The handlers, in place -----

  /** An accepted offer is held: completed already for this requester, or reserved for it. */
  lemma AcceptedIsHeld(t: Table, s: Step)
    requires Safe(t) && s.Offer? && TakeOffer(t, s).1.Accept?
    ensures var after, id := TakeOffer(t, s).0, s.task.taskId;
            if id in t.completed then after.completed[id].task == s.task && after.completed[id].requester == s.signer
            else id in after.pending && after.pending[id].task == s.task && after.pending[id].requester == s.signer
  {
    hide Eligible;
  }

  /** A message that is neither the requester's own about the task, nor past its lease. */
  predicate LeavesAlone(id: string, p: PendingTask, s: Step) {
    match s
    case Offer(_, _, _, _, seen) => Live(p, seen.measuredAt)
    case Commit(signer, taskId, _) => taskId != id || signer != p.requester
    case Cancel(signer, taskId) => taskId != id || signer != p.requester
    case Measure(at) => Live(p, at)
  }

  lemma {:induction false} ReservationSurvives(t: Table, steps: seq<Step>, id: string)
    requires Safe(t) && id in t.pending && forall i | 0 <= i < |steps| :: LeavesAlone(id, t.pending[id], steps[i])
    ensures Safe(After(t, steps)) && id in After(t, steps).pending && After(t, steps).pending[id] == t.pending[id]
    decreases |steps|
  {
    if steps != [] {
      var n := |steps| - 1;
      ReservationSurvives(t, steps[..n], id);
      var before := After(t, steps[..n]);
      hide Safe, Take, Live;
      StepKeepsSafe(before, steps[n]);
      if id !in Take(before, steps[n]).0.pending || Take(before, steps[n]).0.pending[id] != t.pending[id] {
        OnlyRequesterOrClockReleases(before, steps[n], id);
      }
    }
  }

  /**
   * Whatever others send in between, a reserved task that its requester commits in time runs: the
   * reply is the record of that very task, and from then on the stored result.
   */
  lemma ReservedTaskRuns(t: Table, steps: seq<Step>, id: string, commit: Step)
    requires Safe(t) && id in t.pending && forall i | 0 <= i < |steps| :: LeavesAlone(id, t.pending[id], steps[i])
    requires commit.Commit? && commit.taskId == id && commit.signer == t.pending[id].requester
    requires !LeaseOver(t.pending[id], commit.run) && commit.run.outcome.Yields? && commit.run.outcome.recorded
    ensures var (after, reply) := Take(After(t, steps), commit);
            var result := ResultOf(t.pending[id].task, commit.run);
            && reply == Result(result) && id !in after.pending && id in after.completed
            && after.completed[id] == CompletedTask(t.pending[id].task, commit.signer, result)
  {
    ReservationSurvives(t, steps, id);
  }

  predicate Before(at: u64, limit: Option<u64>) {
    limit.None? || at < limit.value
  }

  /** The memory a task is given: what it declares, and at least 64 MiB. */
  function Granted(task: Task): u64 {
    var declared := task.requirements.minimumMemory;
    if declared < 64 * 1024 * 1024 then 64 * 1024 * 1024 else declared
  }

  /** A host measured less than 30 seconds ago that has what the task asks for, beside a reserve of 1 GiB. */
  predicate Takes(host: Host, task: Task, measuredAt: u64, now: u64) {
    && now < measuredAt + 30_000 && host.cpuOk
    && Granted(task) <= 512 * 1024 * 1024 && host.availableMemory >= 1024 * 1024 * 1024 + Granted(task)
    && task.requirements.minimumStorage <= host.availableStorage
    && (task.requirements.runtime == "wasmtime-component-v1" || task.requirements.runtime == "wasmtime-bytes-v1")
    && Before(now, task.deadline)
  }

  /** A reservation stands until its lease and its task's deadline, or while its task runs. */
  predicate Stands(t: Table, id: string, at: u64) {
    id in t.pending && (t.pending[id].running
                        || (at < t.pending[id].leaseExpiresAt && Before(at, t.pending[id].task.deadline)))
  }

  /**
   * An offer is accepted exactly when its sender is its requester, its lease is in the future and its
   * content is here, and: it repeats a completed or a standing one of the same requester and task; or
   * nothing stands, its id is not completed, the host takes it, and it could be recorded.
   */
  lemma OfferAcceptedExactly(t: Table, s: Step)
    requires Safe(t) && s.Offer?
    ensures var id, at := s.task.taskId, s.seen.measuredAt;
            TakeOffer(t, s).1 == Accept <==>
            && id != "" && s.requester == s.signer && s.seen.receivedAt < s.expiresAt
            && s.task.component in s.seen.stored && s.task.input in s.seen.stored
            && if id in t.completed then t.completed[id].requester == s.signer && t.completed[id].task == s.task
               else if Stands(t, id, at) then t.pending[id].requester == s.signer && t.pending[id].task == s.task
               else
                 && (forall other | other in t.pending :: !Stands(t, other, at))
                 && Takes(s.seen.host, s.task, at, s.seen.observedAt) && s.seen.metadataOk
  {
    var pending := Prune(t.pending, s.seen.measuredAt);
    StandingIsPruned(t, s.seen.measuredAt);
    if pending == map[] {
      RoomExactly(s);
    } else {
      PruneSize(pending);
    }
    HasRoomMeansEmpty(t, s);
    assert |pending| == 0 ==> pending == map[];
    hide HasRoom, Takes, Safe, Prune, Stands;
  }

  lemma StandingIsPruned(t: Table, at: u64)
    ensures forall id :: id in Prune(t.pending, at) <==> Stands(t, id, at)
    ensures forall id | id in Prune(t.pending, at) :: Prune(t.pending, at)[id] == t.pending[id]
    ensures Prune(t.pending, at) == map[] <==> forall id | id in t.pending :: !Stands(t, id, at)
  {
    var pruned := Prune(t.pending, at);
    if pruned != map[] {
      assert pruned.Keys != {};
      var id :| id in pruned.Keys;
      assert Stands(t, id, at);
    }
  }

  lemma PruneSize(pending: Pending)
    requires pending != map[]
    ensures |pending| > 0
  {
    assert pending.Keys != {};
    assert |pending| == |pending.Keys|;
  }

  lemma RoomExactly(s: Step)
    requires s.Offer?
    ensures HasRoom(map[], s) <==> Takes(s.seen.host, s.task, s.seen.measuredAt, s.seen.observedAt)
  {
    assert Limits(map[]) == map[];
    assert MapSums.Sum(Limits(map[])) == 0;
  }

  /**
   * A commit is answered with a result exactly when its signer is the requester of the completed task,
   * which is then the stored one; or of a reservation within lease and deadline that is not yet running,
   * and the run yields a record, which names task, component, input and executor, and is taken.
   */
  lemma CommitAnswersExactly(t: Table, s: Step, r: SignedExecutionRecord)
    requires Safe(t) && s.Commit?
    ensures TakeCommit(t, s).1 == Result(r) <==>
            if s.taskId in t.completed
            then t.completed[s.taskId].requester == s.signer && t.completed[s.taskId].result == r
            else
              && s.taskId in t.pending && t.pending[s.taskId].requester == s.signer
              && s.run.leaseCheckedAt < t.pending[s.taskId].leaseExpiresAt
              && Before(s.run.deadlineCheckedAt, t.pending[s.taskId].task.deadline)
              && s.run.outcome.Yields? && s.run.outcome.recorded
              && var task, y := t.pending[s.taskId].task, s.run.outcome;
              && r.record == ExecutionRecord(s.taskId, s.run.executor, task.component, task.input, y.output,
                                             y.executionHash, s.run.startedAt, s.run.completedAt)
              && r == SignedExecutionRecord(r.record, s.run.executor, y.publicKey, y.signature)
  {
  }

  /** Cancelling frees exactly the requester's own reservation. */
  lemma CancelExactly(t: Table, s: Step)
    requires Safe(t) && s.Cancel?
    ensures var mine := s.taskId in t.pending && t.pending[s.taskId].requester == s.signer;
            TakeCancel(t, s) == if mine then (Table(t.pending - {s.taskId}, t.completed), Cancelled) else (t, Failure)
  {
  }

  /** Whatever others send in between, a requester who commits again is given the same record. */
  lemma RepeatedCommitAnswers(t: Table, steps: seq<Step>, i: nat, j: nat)
    requires Safe(t) && i < j < |steps| && steps[i].Commit? && steps[j].Commit?
    requires steps[i].taskId == steps[j].taskId && steps[i].signer == steps[j].signer && ReplyAt(t, steps, i).Result?
    ensures ReplyAt(t, steps, j) == ReplyAt(t, steps, i)
  {
    hide Take, Safe;
    ResultIsStored(t, steps, i);
    RunRetains(t, steps, i + 1, j);
    RunKeepsSafe(t, steps, j);
    hide After;
    CompletedIsAnswered(After(t, steps[..j]), steps[j]);
  }

  lemma CompletedIsAnswered(t: Table, s: Step)
    requires s.Commit? && s.taskId in t.completed && t.completed[s.taskId].requester == s.signer
    ensures Take(t, s).1 == Result(t.completed[s.taskId].result)
  {
  }

  class Executor {
    var pending: Pending
    var completed: map<string, CompletedTask>

    function View(): Table
      reads this
    {
      Table(pending, completed)
    }

    constructor (completed: map<string, CompletedTask>)
      requires forall id | id in completed :: Consistent(id, completed[id])
      ensures View() == Table(map[], completed) && Safe(View())
    {
      pending, this.completed := map[], completed;
    }

    /** Drops reservations whose lease or deadline has passed, and reports what the rest occupy. */
    method Capability(at: u64) returns (reserved: nat, occupied: nat)
      modifies this
      ensures View() == old(View()).(pending := Prune(old(pending), at))
      ensures reserved == MapSums.Sum(Limits(pending)) && occupied == |pending|
    {
      pending := Prune(pending, at);
      reserved := MapSums.Total(Limits(pending));
      occupied := |pending|;
    }

    method AcceptOffer(s: Step) returns (reply: Reply)
      requires s.Offer? && Safe(View())
      modifies this
      ensures (View(), reply) == TakeOffer(old(View()), s)
      ensures Safe(View())
    {
      OfferKeepsSafe(View(), s);
      hide Safe, Eligible;
      var id := s.task.taskId;
      if id == "" || s.requester != s.signer || s.expiresAt <= s.seen.receivedAt
         || s.task.component !in s.seen.stored || s.task.input !in s.seen.stored {
        return Reject;
      }
      if id in completed {
        return if completed[id].requester == s.requester && completed[id].task == s.task then Accept else Reject;
      }
      var reserved, occupied := Capability(s.seen.measuredAt);
      if id in pending {
        return if pending[id].requester == s.requester && pending[id].task == s.task then Accept else Reject;
      }
      if !Eligible(s.task, s.seen.host, reserved, occupied, s.seen.measuredAt, s.seen.observedAt)
         || |pending| >= MAX_CONCURRENT_TASKS {
        return Reject;
      }
      pending := pending[id := PendingTask(s.task, s.requester, s.expiresAt, false)];
      return if s.seen.metadataOk then Accept else Failure;
    }

    /** Marks the reservation running, runs the task, and always releases the reservation. */
    method Execute(s: Step) returns (reply: Reply)
      requires s.Commit? && Safe(View())
      modifies this
      ensures (View(), reply) == TakeCommit(old(View()), s)
      ensures Safe(View()) && Retains(old(View()), View())
    {
      CommitKeepsSafe(View(), s);
      hide Safe, Consistent, TouchesOne, Retains, ResultOf, LeaseOver;
      var id := s.taskId;
      if id in completed {
        return if completed[id].requester == s.signer then Result(completed[id].result) else Failure;
      }
      if id !in pending {
        return Failure;
      }
      var accepted := pending[id];
      if accepted.requester != s.signer {
        return Failure;
      }
      if LeaseOver(accepted, s.run) {
        pending := pending - {id};
        return Failure;
      }
      if accepted.running {
        return Failure;
      }
      MarkAndRemove(pending, id, accepted.(running := true));
      pending := pending[id := accepted.(running := true)];
      reply := Failure;
      if s.run.outcome.Yields? {
        var result := ResultOf(accepted.task, s.run);
        completed := completed[id := CompletedTask(accepted.task, s.signer, result)];
        if s.run.outcome.recorded {
          reply := Result(result);
        }
      }
      pending := pending - {id};
    }

    method CancelTask(s: Step) returns (reply: Reply)
      requires s.Cancel? && Safe(View())
      modifies this
      ensures (View(), reply) == TakeCancel(old(View()), s)
      ensures Safe(View())
    {
      CancelKeepsSafe(View(), s);
      hide Safe;
      if s.taskId in pending && pending[s.taskId].requester == s.signer && !pending[s.taskId].running {
        pending := pending - {s.taskId};
        return Cancelled;
      }
      return Failure;
    }
  }
}
