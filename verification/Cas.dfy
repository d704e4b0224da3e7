/**
 * The content-addressed file store, as any number of `put` calls in any number of processes that
 * interleave on one file system, each of which may fail at an I/O step or die with its process.
 */
module Cas {
  import opened Common
  import opened Protocol

  // ----- The file system -----

  /** An object's own file, or a temporary beside it named by process and sequence number. */
  datatype Path = Object(id: ContentId) | Temp(id: ContentId, pid: nat, number: nat)

  type Inode = nat

  /** Names point to inodes, so a hard link gives one content two names. Inodes from `next` on are unused. */
  datatype Disk = Disk(files: map<Path, Inode>, data: map<Inode, Bytes>, next: Inode)

  predicate WellFormed(d: Disk) {
    && (forall p | p in d.files :: d.files[p] in d.data)
    && (forall i | i in d.data :: i < d.next)
  }

  function Contents(d: Disk, p: Path): Bytes
    requires WellFormed(d) && p in d.files
  {
    d.data[d.files[p]]
  }

  function Create(d: Disk, p: Path): Disk {
    Disk(d.files[p := d.next], d.data[d.next := []], d.next + 1)
  }

  function Write(d: Disk, i: Inode, bytes: Bytes): Disk {
    d.(data := d.data[i := bytes])
  }

  function Link(d: Disk, p: Path, i: Inode): Disk {
    d.(files := d.files[p := i])
  }

  function Unlink(d: Disk, p: Path): Disk {
    d.(files := d.files - {p})
  }

  // ----- Writers -----

  datatype Outcome = Done | Corrupt | Failed

  datatype Phase =
    | Checking
    | Naming
    | Writing(temp: Path, inode: Inode, written: nat)
    | Linking(temp: Path, inode: Inode)
    | Cleaning(temp: Path)
    | Clashing(temp: Path)
    | Abandoning(temp: Path)
    | Verifying
    | Finished(outcome: Outcome)

  datatype Writer = Writer(pid: nat, bytes: Bytes, phase: Phase)

  /** Each process counts its temporaries from zero. */
  datatype State = State(disk: Disk, counters: map<nat, nat>, writers: map<nat, Writer>)

  /**
   * What the system call of a step does: it fails, or it succeeds, writing up to `n` bytes if it writes;
   * none is an error.
   */
  datatype Call = Fail | Go(n: nat)

  datatype Action =
    | Begin(w: nat, pid: nat, bytes: Bytes)
    | Step(w: nat, call: Call)
    | Crash(pid: nat)

  function Counter(s: State, pid: nat): nat {
    if pid in s.counters then s.counters[pid] else 0
  }

  /** What checking an object finds. */
  function Found(h: Bytes -> Digest, d: Disk, id: ContentId): Outcome {
    if Object(id) !in d.files || d.files[Object(id)] !in d.data then Failed
    else if h(d.data[d.files[Object(id)]]) == id then Done else Corrupt
  }

  /** One writer's step on the disk and its process's counter alone. */
  function Move(h: Bytes -> Digest, pid: nat, bytes: Bytes, at: (Disk, nat, Phase), call: Call): (Disk, nat, Phase) {
    var (d, counter, phase) := at;
    var target := Object(h(bytes));
    match phase
    case Checking => (d, counter, if call.Go? && target in d.files then Verifying else Naming)
    case Naming =>
      var temp := Temp(h(bytes), pid, counter);
      if call.Fail? then (d, counter, Finished(Failed))
      else if temp in d.files then (d, counter + 1, Naming)
      else (Create(d, temp), counter + 1, Writing(temp, d.next, 0))
    case Writing(temp, inode, written) =>
      if call.Fail? || (written < |bytes| && call.n == 0) then (d, counter, Abandoning(temp))
      else if written >= |bytes| then (d, counter, Linking(temp, inode))
      else
        var more := if written + call.n <= |bytes| then written + call.n else |bytes|;
        (Write(d, inode, bytes[..more]), counter, Writing(temp, inode, more))
    case Linking(temp, inode) =>
      if call.Fail? then (d, counter, Abandoning(temp))
      else if target in d.files then (d, counter, Clashing(temp))
      else (Link(d, target, inode), counter, Cleaning(temp))
    case Cleaning(temp) =>
      if call.Fail? then (d, counter, Finished(Failed)) else (Unlink(d, temp), counter, Finished(Done))
    case Clashing(temp) => (if call.Fail? then d else Unlink(d, temp), counter, Verifying)
    case Abandoning(temp) => (if call.Fail? then d else Unlink(d, temp), counter, Finished(Failed))
    case Verifying => (d, counter, Finished(if call.Fail? then Failed else Found(h, d, target.id)))
    case Finished(_) => at
  }

  function Set(s: State, w: nat, at: (Disk, nat, Phase)): State
    requires w in s.writers
  {
    var wr := s.writers[w];
    State(at.0, s.counters[wr.pid := at.1], s.writers[w := wr.(phase := at.2)])
  }

  /** One writer's next step. */
  function Advance(h: Bytes -> Digest, s: State, w: nat, call: Call): State
    requires w in s.writers
  {
    var wr := s.writers[w];
    Set(s, w, Move(h, wr.pid, wr.bytes, (s.disk, Counter(s, wr.pid), wr.phase), call))
  }

  /** A step that leaves the counter as it is. */
  function On(s: State, disk: Disk, w: nat, phase: Phase): State
    requires w in s.writers
  {
    Set(s, w, (disk, Counter(s, s.writers[w].pid), phase))
  }

  function Apply(h: Bytes -> Digest, s: State, a: Action): State {
    match a
    case Begin(w, pid, bytes) =>
      if w in s.writers then s else s.(writers := s.writers[w := Writer(pid, bytes, Checking)])
    case Step(w, call) => if w in s.writers then Advance(h, s, w, call) else s
    case Crash(pid) =>
      s.(counters := s.counters - {pid}, writers := map w | w in s.writers && s.writers[w].pid != pid :: s.writers[w])
  }

  // ----- What every state keeps -----

  /** Every published object is complete: its contents have its identifier. */
  ghost predicate Sound(h: Bytes -> Digest, d: Disk)
    requires WellFormed(d)
  {
    forall id | Object(id) in d.files :: h(Contents(d, Object(id))) == id
  }

  predicate Private(d: Disk, temp: Path, i: Inode) {
    temp in d.files && d.files[temp] == i && forall p | p in d.files && d.files[p] == i :: p == temp
  }

  predicate Holding(p: Phase) {
    p.Writing? || p.Linking? || p.Cleaning? || p.Clashing? || p.Abandoning?
  }

  /** What a writer may rely on between its steps, whatever the others do. */
  predicate Relies(h: Bytes -> Digest, d: Disk, wr: Writer)
    requires WellFormed(d)
  {
    && (Holding(wr.phase) ==> wr.phase.temp.Temp? && wr.phase.temp in d.files)
    && match wr.phase
       case Writing(temp, i, n) => n <= |wr.bytes| && Private(d, temp, i) && d.data[i] == wr.bytes[..n]
       case Linking(temp, i) => Private(d, temp, i) && d.data[i] == wr.bytes
       case Cleaning(_) => Object(h(wr.bytes)) in d.files
       case Clashing(_) => Object(h(wr.bytes)) in d.files
       case Verifying => Object(h(wr.bytes)) in d.files
       case Finished(outcome) => outcome != Corrupt && (outcome == Done ==> Object(h(wr.bytes)) in d.files)
       case _ => true
  }

  predicate TempsApart(writers: map<nat, Writer>) {
    forall v, w | v in writers && w in writers && v != w && Holding(writers[v].phase) && Holding(writers[w].phase) ::
      writers[v].phase.temp != writers[w].phase.temp
  }

  ghost predicate Safe(h: Bytes -> Digest, s: State) {
    && WellFormed(s.disk) && Sound(h, s.disk) && TempsApart(s.writers)
    && forall w | w in s.writers :: Relies(h, s.disk, s.writers[w])
  }

  // ----- One file-system operation at a time -----

  /** Published objects stay, with their contents. */
  ghost predicate Keeps(d: Disk, d': Disk)
    requires WellFormed(d) && WellFormed(d')
  {
    forall id | Object(id) in d.files :: Object(id) in d'.files && Contents(d', Object(id)) == Contents(d, Object(id))
  }

  lemma CreateIsApart(h: Bytes -> Digest, d: Disk, p: Path, wr: Writer)
    requires WellFormed(d) && Sound(h, d) && p.Temp? && p !in d.files && Relies(h, d, wr)
    ensures var d' := Create(d, p);
            WellFormed(d') && Sound(h, d') && Keeps(d, d') && Private(d', p, d.next) && Relies(h, d', wr)
  {
  }

  lemma WriteIsApart(h: Bytes -> Digest, d: Disk, temp: Path, i: Inode, bytes: Bytes, wr: Writer)
    requires WellFormed(d) && Sound(h, d) && temp.Temp? && Private(d, temp, i) && Relies(h, d, wr)
    requires Holding(wr.phase) ==> wr.phase.temp != temp
    ensures var d' := Write(d, i, bytes);
            WellFormed(d') && Sound(h, d') && Keeps(d, d') && Private(d', temp, i) && Relies(h, d', wr)
  {
  }

  lemma LinkIsApart(h: Bytes -> Digest, d: Disk, id: ContentId, temp: Path, i: Inode, wr: Writer)
    requires WellFormed(d) && Sound(h, d) && Private(d, temp, i) && Relies(h, d, wr)
    requires Object(id) !in d.files && h(d.data[i]) == id
    requires Holding(wr.phase) ==> wr.phase.temp != temp
    ensures var d' := Link(d, Object(id), i); WellFormed(d') && Sound(h, d') && Keeps(d, d') && Relies(h, d', wr)
  {
  }

  lemma UnlinkIsApart(h: Bytes -> Digest, d: Disk, temp: Path, wr: Writer)
    requires WellFormed(d) && Sound(h, d) && temp.Temp? && Relies(h, d, wr)
    requires Holding(wr.phase) ==> wr.phase.temp != temp
    ensures var d' := Unlink(d, temp); WellFormed(d') && Sound(h, d') && Keeps(d, d') && Relies(h, d', wr)
  {
  }

  /** A writer moves on while the others still have what they rely on. */
  lemma WriterMoves(h: Bytes -> Digest, s: State, d: Disk, counters: map<nat, nat>, w: nat, phase: Phase)
    requires Safe(h, s) && w in s.writers && WellFormed(d) && Sound(h, d)
    requires Relies(h, d, s.writers[w].(phase := phase))
    requires forall v | v in s.writers && v != w :: Relies(h, d, s.writers[v])
    requires Holding(phase) ==>
               (Holding(s.writers[w].phase) && phase.temp == s.writers[w].phase.temp) || phase.temp !in s.disk.files
    ensures Safe(h, State(d, counters, s.writers[w := s.writers[w].(phase := phase)]))
  {
    var writers := s.writers[w := s.writers[w].(phase := phase)];
    forall u, v | u in writers && v in writers && u != v && Holding(writers[u].phase) && Holding(writers[v].phase)
      ensures writers[u].phase.temp != writers[v].phase.temp
    {
      assert v != w ==> Relies(h, s.disk, s.writers[v]);
      assert u != w ==> Relies(h, s.disk, s.writers[u]);
    }
  }

  lemma NamingKeepsSafe(h: Bytes -> Digest, s: State, w: nat, call: Call)
    requires Safe(h, s) && w in s.writers && s.writers[w].phase.Naming?
    requires call.Go?
    ensures Safe(h, Advance(h, s, w, call)) && Keeps(s.disk, Advance(h, s, w, call).disk)
  {
    var wr, d := s.writers[w], s.disk;
    var temp := Temp(h(wr.bytes), wr.pid, Counter(s, wr.pid));
    if temp in d.files {
      WriterMoves(h, s, d, s.counters[wr.pid := Counter(s, wr.pid) + 1], w, Naming);
    } else {
      forall v | v in s.writers ensures Relies(h, Create(d, temp), s.writers[v]) {
        CreateIsApart(h, d, temp, s.writers[v]);
      }
      CreateIsApart(h, d, temp, wr);
      WriterMoves(h, s, Create(d, temp), s.counters[wr.pid := Counter(s, wr.pid) + 1], w, Writing(temp, d.next, 0));
    }
  }

  lemma WritingKeepsSafe(h: Bytes -> Digest, s: State, w: nat, more: nat)
    requires Safe(h, s) && w in s.writers && s.writers[w].phase.Writing? && more <= |s.writers[w].bytes|
    ensures var wr := s.writers[w]; var d := Write(s.disk, wr.phase.inode, wr.bytes[..more]);
            WellFormed(d) && Keeps(s.disk, d) && Safe(h, On(s, d, w, Writing(wr.phase.temp, wr.phase.inode, more)))
  {
    var wr := s.writers[w];
    var temp, i := wr.phase.temp, wr.phase.inode;
    var d := Write(s.disk, i, wr.bytes[..more]);
    forall v | v in s.writers && v != w ensures Relies(h, d, s.writers[v]) {
      WriteIsApart(h, s.disk, temp, i, wr.bytes[..more], s.writers[v]);
    }
    WriteIsApart(h, s.disk, temp, i, wr.bytes[..more], Writer(0, [], Checking));
    WriterMoves(h, s, d, On(s, s.disk, w, s.writers[w].phase).counters, w, Writing(temp, i, more));
  }

  lemma LinkingKeepsSafe(h: Bytes -> Digest, s: State, w: nat)
    requires Safe(h, s) && w in s.writers && s.writers[w].phase.Linking?
             && Object(h(s.writers[w].bytes)) !in s.disk.files
    ensures var wr := s.writers[w]; var d := Link(s.disk, Object(h(wr.bytes)), wr.phase.inode);
            WellFormed(d) && Keeps(s.disk, d) && Safe(h, On(s, d, w, Cleaning(wr.phase.temp)))
  {
    var wr := s.writers[w];
    var temp, i, id := wr.phase.temp, wr.phase.inode, h(wr.bytes);
    var d := Link(s.disk, Object(id), i);
    forall v | v in s.writers && v != w ensures Relies(h, d, s.writers[v]) {
      LinkIsApart(h, s.disk, id, temp, i, s.writers[v]);
    }
    LinkIsApart(h, s.disk, id, temp, i, Writer(0, [], Checking));
    WriterMoves(h, s, d, On(s, s.disk, w, s.writers[w].phase).counters, w, Cleaning(temp));
  }

  lemma UnlinkingKeepsSafe(h: Bytes -> Digest, s: State, w: nat, phase: Phase)
    requires Safe(h, s) && w in s.writers && Holding(s.writers[w].phase) && !Holding(phase)
    requires Relies(h, s.disk, s.writers[w].(phase := phase))
    ensures var d := Unlink(s.disk, s.writers[w].phase.temp);
            WellFormed(d) && Keeps(s.disk, d) && Safe(h, On(s, d, w, phase))
  {
    var temp := s.writers[w].phase.temp;
    var d := Unlink(s.disk, temp);
    forall v | v in s.writers && v != w ensures Relies(h, d, s.writers[v]) {
      UnlinkIsApart(h, s.disk, temp, s.writers[v]);
    }
    UnlinkIsApart(h, s.disk, temp, s.writers[w].(phase := phase));
    WriterMoves(h, s, d, On(s, s.disk, w, s.writers[w].phase).counters, w, phase);
  }

  lemma StayingKeepsSafe(h: Bytes -> Digest, s: State, w: nat, phase: Phase)
    requires Safe(h, s) && w in s.writers && Relies(h, s.disk, s.writers[w].(phase := phase))
    requires Holding(phase) ==> Holding(s.writers[w].phase) && phase.temp == s.writers[w].phase.temp
    ensures Safe(h, On(s, s.disk, w, phase)) && Keeps(s.disk, s.disk)
  {
    WriterMoves(h, s, s.disk, On(s, s.disk, w, s.writers[w].phase).counters, w, phase);
  }

  lemma SafeWriter(h: Bytes -> Digest, s: State, w: nat)
    requires Safe(h, s) && w in s.writers
    ensures WellFormed(s.disk) && Relies(h, s.disk, s.writers[w])
    ensures Object(h(s.writers[w].bytes)) in s.disk.files ==> Found(h, s.disk, h(s.writers[w].bytes)) == Done
    ensures Keeps(s.disk, s.disk)
  {
  }

  lemma EarlyKeepsSafe(h: Bytes -> Digest, s: State, w: nat, call: Call)
    requires Safe(h, s) && w in s.writers
    requires s.writers[w].phase.Checking? || s.writers[w].phase.Naming? || s.writers[w].phase.Writing?
    ensures Safe(h, Advance(h, s, w, call)) && Keeps(s.disk, Advance(h, s, w, call).disk)
  {
    hide Safe, Sound, TempsApart, Keeps, WellFormed;
    SafeWriter(h, s, w);
    var wr, d := s.writers[w], s.disk;
    match wr.phase {
      case Checking =>
        StayingKeepsSafe(h, s, w, if call.Go? && Object(h(wr.bytes)) in d.files then Verifying else Naming);
      case Naming =>
        StayingKeepsSafe(h, s, w, Finished(Failed));
        if call.Go? { NamingKeepsSafe(h, s, w, call); }
      case Writing(temp, i, n) =>
        if call.Fail? || (n < |wr.bytes| && call.n == 0) {
          StayingKeepsSafe(h, s, w, Abandoning(temp));
        } else if n < |wr.bytes| {
          WritingKeepsSafe(h, s, w, if n + call.n <= |wr.bytes| then n + call.n else |wr.bytes|);
        } else {
          StayingKeepsSafe(h, s, w, Linking(temp, i));
        }
      case _ =>
    }
  }

  /** Every step of every writer, failed or not, keeps all of this and every published object. */
  lemma AdvanceKeepsSafe(h: Bytes -> Digest, s: State, w: nat, call: Call)
    requires Safe(h, s) && w in s.writers
    ensures Safe(h, Advance(h, s, w, call)) && Keeps(s.disk, Advance(h, s, w, call).disk)
  {
    hide Safe, Sound, TempsApart, Keeps, WellFormed;
    SafeWriter(h, s, w);
    var wr, d := s.writers[w], s.disk;
    match wr.phase {
      case Linking(temp, i) =>
        if call.Fail? {
          StayingKeepsSafe(h, s, w, Abandoning(temp));
        } else if Object(h(wr.bytes)) in d.files {
          StayingKeepsSafe(h, s, w, Clashing(temp));
        } else {
          LinkingKeepsSafe(h, s, w);
        }
      case Cleaning(temp) =>
        StayingKeepsSafe(h, s, w, Finished(Failed));
        UnlinkingKeepsSafe(h, s, w, Finished(Done));
      case Clashing(temp) =>
        StayingKeepsSafe(h, s, w, Verifying);
        UnlinkingKeepsSafe(h, s, w, Verifying);
      case Abandoning(temp) =>
        StayingKeepsSafe(h, s, w, Finished(Failed));
        UnlinkingKeepsSafe(h, s, w, Finished(Failed));
      case Verifying =>
        StayingKeepsSafe(h, s, w, Finished(if call.Fail? then Failed else Found(h, d, h(wr.bytes))));
      case Finished(_) => StayingKeepsSafe(h, s, w, wr.phase);
      case _ => EarlyKeepsSafe(h, s, w, call);
    }
  }

  /** A process that dies takes its own writers with it, and leaves the others and the disk as they are. */
  lemma CrashLeavesOthers(h: Bytes -> Digest, s: State, pid: nat, w: nat)
    ensures var t := Apply(h, s, Crash(pid));
            && t.disk == s.disk && Counter(t, pid) == 0
            && (w in t.writers <==> w in s.writers && s.writers[w].pid != pid)
            && (w in t.writers ==>
                  t.writers[w] == s.writers[w] && Counter(t, s.writers[w].pid) == Counter(s, s.writers[w].pid))
  {
  }

  lemma ApplyKeepsSafe(h: Bytes -> Digest, s: State, a: Action)
    requires Safe(h, s)
    ensures Safe(h, Apply(h, s, a)) && Keeps(s.disk, Apply(h, s, a).disk)
  {
    if a.Step? && a.w in s.writers { AdvanceKeepsSafe(h, s, a.w, a.call); }
  }

  ghost function Run(h: Bytes -> Digest, s: State, actions: seq<Action>): (s': State)
    requires Safe(h, s)
    ensures Safe(h, s') && Keeps(s.disk, s'.disk)
    decreases |actions|
  {
    if actions == [] then s
    else
      ApplyKeepsSafe(h, s, actions[0]);
      Run(h, Apply(h, s, actions[0]), actions[1..])
  }

  // ----- What callers see -----

  datatype CasError = NotFound | Mismatch

  function Get(h: Bytes -> Digest, d: Disk, id: ContentId): Result<Bytes, CasError>
    requires WellFormed(d)
  {
    if Object(id) !in d.files then Err(NotFound)
    else
      var bytes := Contents(d, Object(id));
      if h(bytes) == id then Ok(bytes) else Err(Mismatch)
  }

  /** Writers begin on a directory of complete objects; temporaries of dead processes may lie about. */
  const NOBODY: map<nat, Writer> := map[]

  /**
   * From a sound directory, through every interleaving of writers, failures and crashes: nobody reads
   * or reports a corrupt object, and whatever could be read can be read ever after, unchanged.
   */
  lemma NothingIsEverCorrupt(h: Bytes -> Digest, d: Disk, actions: seq<Action>, more: seq<Action>, id: ContentId)
    requires WellFormed(d) && Sound(h, d)
    ensures Safe(h, State(d, map[], NOBODY))
    ensures var s := Run(h, State(d, map[], NOBODY), actions);
            && Get(h, s.disk, id) != Err(Mismatch)
            && (forall w | w in s.writers :: s.writers[w].phase != Finished(Corrupt))
            && (Get(h, s.disk, id).Ok? ==> Get(h, Run(h, s, more).disk, id) == Get(h, s.disk, id))
  {
    var s := Run(h, State(d, map[], NOBODY), actions);
    forall w | w in s.writers ensures s.writers[w].phase != Finished(Corrupt) {
      SafeWriter(h, s, w);
    }
  }

  /**
   * A `put` that has answered is served ever after, also when its process dies: with its own bytes,
   * or else with bytes that collide with them.
   */
  lemma AcknowledgedIsServed(h: Bytes -> Digest, s: State, w: nat, more: seq<Action>)
    requires Safe(h, s) && w in s.writers && s.writers[w].phase == Finished(Done)
    ensures var bytes := s.writers[w].bytes; var r := Get(h, Run(h, s, more).disk, h(bytes));
            r.Ok? && (r.value == bytes || Collision(h, (r.value, bytes)))
  {
    SafeWriter(h, s, w);
  }

  // ----- Progress -----

  /** Names still taken for the writer's next temporaries, left by processes that died. */
  function Taken(h: Bytes -> Digest, s: State, w: nat): set<Path>
    requires w in s.writers
  {
    var wr := s.writers[w];
    set p | p in s.disk.files && p.Temp? && p.id == h(wr.bytes) && p.pid == wr.pid && p.number >= Counter(s, wr.pid)
  }

  function Rank(wr: Writer): nat {
    match wr.phase
    case Checking => 8
    case Naming => 7
    case Writing(_, _, n) => if n < |wr.bytes| then 6 else 5
    case Linking(_, _) => 4
    case Cleaning(_) => 3
    case Clashing(_) => 3
    case Verifying => 2
    case Abandoning(_) => 1
    case Finished(_) => 0
  }

  /** The writer runs alone for `n` steps, none of them failing. */
  ghost function Solo(h: Bytes -> Digest, s: State, w: nat, n: nat): (s': State)
    requires Safe(h, s) && w in s.writers
    ensures Safe(h, s') && w in s'.writers && s'.writers[w].bytes == s.writers[w].bytes
    decreases n
  {
    if n == 0 then s
    else
      hide Safe;
      AdvanceKeepsSafe(h, s, w, Go(|s.writers[w].bytes|));
      SafeWriter(h, s, w);
      Solo(h, Advance(h, s, w, Go(|s.writers[w].bytes|)), w, n - 1)
  }

  lemma RankFalls(h: Bytes -> Digest, s: State, w: nat)
    requires Safe(h, s) && w in s.writers && !s.writers[w].phase.Finished?
    ensures var s' := Advance(h, s, w, Go(|s.writers[w].bytes|));
            && w in s'.writers && Rank(s'.writers[w]) <= Rank(s.writers[w])
            && (Rank(s'.writers[w]) == Rank(s.writers[w]) ==> Taken(h, s', w) < Taken(h, s, w))
            && (!s.writers[w].phase.Abandoning? ==>
                  && !s'.writers[w].phase.Abandoning?
                  && (s'.writers[w].phase.Finished? ==> s'.writers[w].phase.outcome == Done))
  {
    SafeWriter(h, s, w);
    var wr := s.writers[w];
    if wr.phase.Naming? {
      var temp := Temp(h(wr.bytes), wr.pid, Counter(s, wr.pid));
      if temp in s.disk.files {
        var s' := Advance(h, s, w, Go(|wr.bytes|));
        assert temp in Taken(h, s, w) && temp !in Taken(h, s', w);
      }
    }
  }

  /**
   * From every reachable state, an unfinished `put` left to run alone without failures answers, and
   * unless it has already given up, it answers that the content is stored.
   */
  lemma {:induction false} AloneEveryPutAnswers(h: Bytes -> Digest, s: State, w: nat) returns (n: nat)
    requires Safe(h, s) && w in s.writers
    ensures var p := Solo(h, s, w, n).writers[w].phase;
            && p.Finished?
            && (!s.writers[w].phase.Finished? && !s.writers[w].phase.Abandoning? ==> p.outcome == Done)
    ensures s.writers[w].phase.Finished? ==> n == 0
    decreases Rank(s.writers[w]), Taken(h, s, w)
  {
    hide Safe, Advance, Taken, Rank;
    SafeWriter(h, s, w);
    if s.writers[w].phase.Finished? {
      n := 0;
    } else {
      var call := Go(|s.writers[w].bytes|);
      AdvanceKeepsSafe(h, s, w, call);
      RankFalls(h, s, w);
      var m := AloneEveryPutAnswers(h, Advance(h, s, w, call), w);
      n := m + 1;
    }
  }

  // ----- In place -----

  /** `k` moves from the start of a `put`. */
  function Moves(
    h: Bytes -> Digest, pid: nat, bytes: Bytes, d: Disk, counter: nat, io: nat -> Call, k: nat)
    : (Disk, nat, Phase)
  {
    if k == 0 then (d, counter, Checking)
    else Move(h, pid, bytes, Moves(h, pid, bytes, d, counter, io, k - 1), io(k - 1))
  }

  /** One process's handle on the store; `io` says how each system call goes. */
  class FileCas {
    var disk: Disk
    var counter: nat
    const pid: nat
    const h: Bytes -> Digest

    constructor (h: Bytes -> Digest, pid: nat, disk: Disk)
      ensures this.h == h && this.pid == pid && this.disk == disk && counter == 0
    {
      this.h, this.pid, this.disk, counter := h, pid, disk, 0;
    }

    method Read(id: ContentId) returns (r: Result<Bytes, CasError>)
      requires WellFormed(disk)
      ensures r == Get(h, disk, id)
      ensures r.Ok? ==> h(r.value) == id
    {
      if Object(id) !in disk.files { return Err(NotFound); }
      var bytes := disk.data[disk.files[Object(id)]];
      r := if h(bytes) == id then Ok(bytes) else Err(Mismatch);
    }

    /** Where this `put` is after `k` moves from `d` and `c`. */
    ghost predicate Reached(bytes: Bytes, d: Disk, c: nat, io: nat -> Call, k: nat, phase: Phase)
      reads this
    {
      Moves(h, pid, bytes, d, c, io, k) == (disk, counter, phase)
    }

    /** The retry loop: a fresh temporary name, or a failing call. */
    method NameTemp(bytes: Bytes, io: nat -> Call, from: nat, ghost d: Disk, ghost c: nat)
      returns (phase: Phase, k: nat)
      requires Reached(bytes, d, c, io, from, Naming)
      modifies this
      ensures Reached(bytes, d, c, io, k, phase)
      ensures phase == Finished(Failed) || (phase.Writing? && phase.written == 0)
    {
      k := from;
      while true
        invariant Reached(bytes, d, c, io, k, Naming)
        decreases set p | p in disk.files && p.Temp? && p.id == h(bytes) && p.pid == pid && p.number >= counter
      {
        var call, temp := io(k), Temp(h(bytes), pid, counter);
        k := k + 1;
        if call.Fail? { return Finished(Failed), k; }
        ghost var taken :=
          set p | p in disk.files && p.Temp? && p.id == h(bytes) && p.pid == pid && p.number >= counter;
        counter := counter + 1;
        if temp !in disk.files {
          phase := Writing(temp, disk.next, 0);
          disk := Create(disk, temp);
          return;
        }
        assert temp in taken;
      }
    }

    /** Writes until all is written and synced, or a call fails. */
    method WriteAll(bytes: Bytes, io: nat -> Call, start: Phase, from: nat, ghost d: Disk, ghost c: nat)
      returns (phase: Phase, k: nat)
      requires start.Writing? && start.written == 0 && Reached(bytes, d, c, io, from, start)
      modifies this
      ensures Reached(bytes, d, c, io, k, phase)
      ensures phase == Abandoning(start.temp) || phase == Linking(start.temp, start.inode)
    {
      hide Moves, Create, Write, Link, Unlink, Found;
      var temp, inode, written := start.temp, start.inode, 0;
      k := from;
      while written < |bytes|
        invariant written <= |bytes| && Reached(bytes, d, c, io, k, Writing(temp, inode, written))
      {
        MovesOne(h, pid, bytes, d, c, io, k);
        var call := io(k);
        k := k + 1;
        if call.Fail? || call.n == 0 { return Abandoning(temp), k; }
        written := if written + call.n <= |bytes| then written + call.n else |bytes|;
        disk := Write(disk, inode, bytes[..written]);
      }
      MovesOne(h, pid, bytes, d, c, io, k);
      phase := if io(k).Fail? then Abandoning(temp) else Linking(temp, inode);
      k := k + 1;
    }

    /** The call that ends a `put`, after its temporary is gone or it never had one. */
    method VerifyExisting(bytes: Bytes, io: nat -> Call, from: nat, ghost d: Disk, ghost c: nat)
      returns (r: Outcome, k: nat)
      requires Reached(bytes, d, c, io, from, Verifying)
      ensures Reached(bytes, d, c, io, k, Finished(r))
    {
      r := if io(from).Fail? then Failed else Found(h, disk, h(bytes));
      k := from + 1;
    }

    /** Gives up: the temporary is removed if that works, and the answer is the error. */
    method GiveUp(bytes: Bytes, io: nat -> Call, temp: Path, from: nat, ghost d: Disk, ghost c: nat)
      returns (k: nat)
      requires Reached(bytes, d, c, io, from, Abandoning(temp))
      modifies this`disk
      ensures Reached(bytes, d, c, io, k, Finished(Failed))
    {
      hide Moves, Create, Write, Link, Unlink, Found;
      MovesOne(h, pid, bytes, d, c, io, from);
      if io(from).Go? { disk := Unlink(disk, temp); }
      k := from + 1;
    }

    /** Gives the written file its name, unless an object has it already, and removes the temporary. */
    method Publish(bytes: Bytes, io: nat -> Call, temp: Path, inode: Inode, from: nat, ghost d: Disk, ghost c: nat)
      returns (r: Outcome, k: nat)
      requires Reached(bytes, d, c, io, from, Linking(temp, inode)) && io(from).Go?
      modifies this`disk
      ensures Reached(bytes, d, c, io, k, Finished(r))
    {
      hide Moves, Create, Write, Link, Unlink, Found;
      MovesOne(h, pid, bytes, d, c, io, from);
      MovesOne(h, pid, bytes, d, c, io, from + 1);
      k := from + 2;
      if Object(h(bytes)) in disk.files {
        if io(from + 1).Go? { disk := Unlink(disk, temp); }
        assert Reached(bytes, d, c, io, k, Verifying);
        r, k := VerifyExisting(bytes, io, k, d, c);
      } else {
        disk := Link(disk, Object(h(bytes)), inode);
        if io(from + 1).Go? { disk := Unlink(disk, temp); }
        r := if io(from + 1).Fail? then Failed else Done;
      }
    }

    /** The whole call, however its system calls go, is a run of the writer's moves to its answer. */
    method Put(bytes: Bytes, io: nat -> Call) returns (r: Outcome, k: nat)
      modifies this
      ensures Moves(h, pid, bytes, old(disk), old(counter), io, k) == (disk, counter, Finished(r))
    {
      ghost var d, c := disk, counter;
      assert Reached(bytes, d, c, io, 0, Checking);
      hide Moves, Create, Write, Link, Unlink, Found;
      MovesOne(h, pid, bytes, d, c, io, 0);
      if io(0).Go? && Object(h(bytes)) in disk.files {
        r, k := VerifyExisting(bytes, io, 1, d, c);
        return;
      }
      var phase;
      phase, k := NameTemp(bytes, io, 1, d, c);
      if phase.Finished? { return Failed, k; }
      phase, k := WriteAll(bytes, io, phase, k, d, c);
      MovesOne(h, pid, bytes, d, c, io, k);
      if phase.Linking? && io(k).Go? {
        r, k := Publish(bytes, io, phase.temp, phase.inode, k, d, c);
      } else {
        k := GiveUp(bytes, io, phase.temp, if phase.Linking? then k + 1 else k, d, c);
        r := Failed;
      }
    }
  }

  lemma MovesOne(h: Bytes -> Digest, pid: nat, bytes: Bytes, d: Disk, counter: nat, io: nat -> Call, k: nat)
    ensures Moves(h, pid, bytes, d, counter, io, k + 1)
            == Move(h, pid, bytes, Moves(h, pid, bytes, d, counter, io, k), io(k))
  {
  }

  /** Every point of a call on a sound directory is a safe state of the writers' machine. */
  lemma {:induction false} MovesAreSafe(
    h: Bytes -> Digest, pid: nat, bytes: Bytes, d: Disk, counter: nat, io: nat -> Call, k: nat)
    requires WellFormed(d) && Sound(h, d)
    ensures var (now, c, phase) := Moves(h, pid, bytes, d, counter, io, k);
            Safe(h, State(now, map[pid := c], map[0 := Writer(pid, bytes, phase)])) && Keeps(d, now)
    decreases k
  {
    if k > 0 {
      MovesAreSafe(h, pid, bytes, d, counter, io, k - 1);
      var (now, c, phase) := Moves(h, pid, bytes, d, counter, io, k - 1);
      MoveIsSafe(h, pid, bytes, now, c, phase, io(k - 1));
      hide Safe, Move, Sound;
    }
  }

  lemma MoveIsSafe(h: Bytes -> Digest, pid: nat, bytes: Bytes, d: Disk, c: nat, phase: Phase, call: Call)
    requires Safe(h, State(d, map[pid := c], map[0 := Writer(pid, bytes, phase)]))
    ensures var (d', c', phase') := Move(h, pid, bytes, (d, c, phase), call);
            Safe(h, State(d', map[pid := c'], map[0 := Writer(pid, bytes, phase')])) && Keeps(d, d')
  {
    var s := State(d, map[pid := c], map[0 := Writer(pid, bytes, phase)]);
    AdvanceKeepsSafe(h, s, 0, call);
    var s' := Advance(h, s, 0, call);
    hide Advance, Move;
    assert s'.writers == map[0 := Writer(pid, bytes, s'.writers[0].phase)];
  }

  /**
   * On any directory, sound or not, a `put` of content whose object is already there writes nothing: it
   * says done if the object has its hash, and otherwise that it is corrupt.
   */
  lemma PutChecksExisting(h: Bytes -> Digest, pid: nat, bytes: Bytes, d: Disk, counter: nat, io: nat -> Call)
    requires WellFormed(d) && Object(h(bytes)) in d.files && io(0).Go? && io(1).Go?
    ensures var sound := h(d.data[d.files[Object(h(bytes))]]) == h(bytes);
            Moves(h, pid, bytes, d, counter, io, 2) == (d, counter, Finished(if sound then Done else Corrupt))
  {
    MovesOne(h, pid, bytes, d, counter, io, 0);
    MovesOne(h, pid, bytes, d, counter, io, 1);
  }

  /**
   * On a sound directory a finished `put` tells the truth, however its system calls went: never that
   * an object is corrupt, and done only when the object can be read, with these bytes or colliding ones.
   */
  lemma PutTellsTheTruth(h: Bytes -> Digest, pid: nat, bytes: Bytes, d: Disk, counter: nat, io: nat -> Call, k: nat)
    requires WellFormed(d) && Sound(h, d) && Moves(h, pid, bytes, d, counter, io, k).2.Finished?
    ensures var (now, _, phase) := Moves(h, pid, bytes, d, counter, io, k);
            && WellFormed(now) && Sound(h, now) && Keeps(d, now) && phase.outcome != Corrupt
            && (phase.outcome == Done ==>
                  var r := Get(h, now, h(bytes)); r.Ok? && (r.value == bytes || Collision(h, (r.value, bytes))))
  {
    MovesAreSafe(h, pid, bytes, d, counter, io, k);
    var (now, c, phase) := Moves(h, pid, bytes, d, counter, io, k);
    SafeWriter(h, State(now, map[pid := c], map[0 := Writer(pid, bytes, phase)]), 0);
    hide Moves;
  }
}
