/**
 * Anonymous credentials: epoch arithmetic, and one-time redemption through a bounded nonce store with
 * reserve, commit and release.
 */
module AnonymousAuth {
  import opened Common

  const PROTOCOL_VERSION: u16 := 1
  const MAX_NETWORK_BYTES: nat := 128
  const MAX_PERMISSION_BYTES: nat := 128

  type Nonce = Bytes

  datatype Policy = Policy(epochSeconds: u64, maxIssues: u16, maxScopeKeys: nat, maxNullifiers: nat)

  datatype Scope = Scope(
    version: u16, networkId: string, permission: string, epoch: u64, expiresAt: u64, issuerKeyId: Digest)

  predicate ValidPolicy(p: Policy) {
    p.epochSeconds > 0 && p.maxIssues > 0 && 0 < p.maxScopeKeys <= 32 && p.maxNullifiers > 0
  }

  predicate ValidScope(s: Scope) {
    && s.version == PROTOCOL_VERSION
    && 0 < |s.networkId| <= MAX_NETWORK_BYTES && 0 < |s.permission| <= MAX_PERMISSION_BYTES
  }

  /** The common epoch of a time and its expiry; none when the expiry does not fit 64 bits. */
  function Epoch(p: Policy, now: u64): Option<(u64, u64)>
    requires ValidPolicy(p)
  {
    var epoch := now / p.epochSeconds;
    EpochBounds(p.epochSeconds, now);
    if epoch + 1 <= U64_MAX && (epoch + 1) * p.epochSeconds <= U64_MAX
    then Some((epoch, (epoch + 1) * p.epochSeconds)) else None
  }

  lemma EpochBounds(seconds: u64, now: u64)
    requires seconds > 0
    ensures 0 <= now / seconds <= now
    ensures now < (now / seconds + 1) * seconds <= now + seconds
  {
    var q, r := now / seconds, now % seconds;
    assert now == q * seconds + r;
    assert (q + 1) * seconds == q * seconds + seconds;
    assert q * seconds == q + q * (seconds - 1);
    MulNonNegative(q, seconds - 1);
  }

  /** A scope that is current now ends within one epoch length, strictly after now. */
  lemma CurrentScopeEndsSoon(p: Policy, now: u64)
    requires ValidPolicy(p) && Epoch(p, now).Some?
    ensures now < Epoch(p, now).value.1 <= SaturatingAdd(now, p.epochSeconds)
  {
    EpochBounds(p.epochSeconds, now);
  }

  /** No scope ever ends later: the last multiple of the epoch length that fits 64 bits. */
  function LastExpiry(p: Policy): nat {
    if p.epochSeconds == 0 then 0 else U64_MAX / p.epochSeconds * p.epochSeconds
  }

  /** Exactly the times before the last expiry have an epoch, and every epoch ends by then. */
  lemma EpochExactly(p: Policy, now: u64)
    requires ValidPolicy(p)
    ensures Epoch(p, now).Some? <==> now < LastExpiry(p)
    ensures Epoch(p, now).Some? ==> Epoch(p, now).value.1 <= LastExpiry(p)
  {
    var seconds := p.epochSeconds;
    EpochBounds(seconds, now);
    EpochBounds(seconds, U64_MAX);
    WholeEpochs(seconds, now, now / seconds, U64_MAX, U64_MAX / seconds);
  }

  lemma WholeEpochs(seconds: nat, now: nat, q: nat, max: nat, last: nat)
    requires q * seconds <= now < (q + 1) * seconds && last * seconds <= max < (last + 1) * seconds
    ensures (q + 1) * seconds <= max <==> now < last * seconds
    ensures now < last * seconds ==> (q + 1) * seconds <= last * seconds
  {
    if q < last {
      MulMonotone(q + 1, last, seconds);
    } else {
      MulMonotone(last, q, seconds);
      MulMonotone(last + 1, q + 1, seconds);
    }
  }

  // ----- The nonce store -----

  datatype Entry = Entry(committed: bool, expiry: u64)

  type Store = map<Nonce, Entry>

  /**
   * The verifier's policy and how long it retains nonces (the source: one epoch length), and how
   * punctual its callers are: their time is at most `lag` older than the store's reading, and a
   * redemption settles within `delay` of its reservation.
   */
  datatype Config = Config(policy: Policy, retention: u64, lag: u64, delay: u64)

  function Unexpired(store: Store, now: u64): Store {
    map n | n in store && store[n].expiry > now :: store[n]
  }

  predicate Reserves(c: Config, store: Store, nonce: Nonce, now: u64) {
    var live := Unexpired(store, now);
    nonce !in live && |live| < c.policy.maxNullifiers
  }

  function Reserve(c: Config, store: Store, nonce: Nonce, now: u64): Store {
    var live := Unexpired(store, now);
    if Reserves(c, store, nonce, now) then live[nonce := Entry(false, SaturatingAdd(now, c.retention))] else live
  }

  function Commit(store: Store, nonce: Nonce): Store {
    if nonce in store then store[nonce := store[nonce].(committed := true)] else store
  }

  function Release(store: Store, nonce: Nonce): Store {
    if nonce in store && !store[nonce].committed then store - {nonce} else store
  }

  // ----- Redemption -----

  /** A token as presented: its nonce under the scope its digest and key id belong to. */
  datatype Token = Token(nonce: Nonce, scope: Scope)

  datatype Attempt = Attempt(token: Token, at: u64)

  /** `clock` is the latest reading; `redeemed` lists the successful redemptions in order. */
  datatype State = State(clock: u64, store: Store, inFlight: map<nat, Attempt>, redeemed: seq<Attempt>)

  /**
   * A redemption reserves the nonce, has the signature checked, and then settles. `sound` stands for
   * the token's length, its known descriptor, and its matching key id and challenge digest. `now` is
   * the caller's time, and `reading` the time the nonce store reads for itself.
   */
  datatype Step =
    | Present(id: nat, token: Token, network: string, permission: string, sound: bool, now: u64, reading: u64)
    | Settle(id: nat, valid: bool, reading: u64)

  predicate Current(c: Config, token: Token, now: u64)
    requires ValidPolicy(c.policy)
  {
    Epoch(c.policy, now) == Some((token.scope.epoch, token.scope.expiresAt))
  }

  /** Everything a presentation must pass before its nonce is reserved. */
  predicate Presentable(c: Config, s: Step)
    requires ValidPolicy(c.policy) && s.Present?
  {
    && ValidScope(s.token.scope)
    && s.token.scope.networkId == s.network && s.token.scope.permission == s.permission
    && Current(c, s.token, s.now) && s.sound
  }

  function Take(c: Config, s: State, step: Step): State
    requires ValidPolicy(c.policy)
  {
    match step
    case Present(id, token, _, _, _, _, t) =>
      if id in s.inFlight || !Presentable(c, step) then s.(clock := t)
      else if Reserves(c, s.store, token.nonce, t) then
        State(t, Reserve(c, s.store, token.nonce, t), s.inFlight[id := Attempt(token, t)], s.redeemed)
      else s.(clock := t, store := Reserve(c, s.store, token.nonce, t))
    case Settle(id, valid, t) =>
      if id !in s.inFlight then s.(clock := t)
      else
        var a := s.inFlight[id];
        if valid then State(t, Commit(s.store, a.token.nonce), s.inFlight - {id}, s.redeemed + [a])
        else State(t, Release(s.store, a.token.nonce), s.inFlight - {id}, s.redeemed)
  }

  /**
   * The clock does not go back, a presentation that passes its checks is at most `lag` old when the
   * store reads the time, and a settlement comes within `delay`.
   */
  predicate Timely(c: Config, s: State, step: Step)
    requires ValidPolicy(c.policy)
  {
    && s.clock <= step.reading
    && (step.Present? && Presentable(c, step) ==>
          step.now <= step.reading <= step.now + c.lag && (step.now < step.reading ==> step.reading < U64_MAX))
    && (step.Settle? && step.id in s.inFlight ==>
          step.reading < SaturatingAdd(s.inFlight[step.id].at, c.delay))
  }

  /**
   * Nonces are retained for every presentation of one token, and either for every settlement or
   * beyond the last presentation there can be.
   */
  predicate LongEnough(c: Config) {
    && (c.retention == U64_MAX || c.policy.epochSeconds + c.lag <= c.retention)
    && (c.delay <= c.retention || LastExpiry(c.policy) + c.lag <= c.retention)
  }

  /** The time from which a token's presentations are refused. */
  function Ends(c: Config, token: Token): u64 {
    SaturatingAdd(token.scope.expiresAt, c.lag)
  }

  /** An attempt started in the past whose nonce is kept as long as its token may be presented. */
  predicate Covered(c: Config, a: Attempt, clock: u64) {
    && a.at <= clock && a.at < Ends(c, a.token) <= SaturatingAdd(a.at, c.retention)
    && a.token.scope.expiresAt <= LastExpiry(c.policy)
  }

  predicate Standing(c: Config, a: Attempt, clock: u64) {
    clock < SaturatingAdd(a.at, c.retention)
  }

  predicate OwnReservation(c: Config, clock: u64, store: Store, a: Attempt) {
    Standing(c, a, clock) ==>
      a.token.nonce in store && store[a.token.nonce] == Entry(false, SaturatingAdd(a.at, c.retention))
  }

  predicate KeptCommitted(c: Config, clock: u64, store: Store, a: Attempt) {
    clock < Ends(c, a.token) ==>
      && a.token.nonce in store && store[a.token.nonce].committed
      && store[a.token.nonce].expiry >= Ends(c, a.token)
  }

  /** Two attempts on one nonce are a retention apart. */
  predicate Apart(c: Config, a: Attempt, b: Attempt) {
    && a.token != b.token
    && (a.token.nonce == b.token.nonce ==> a.at + c.retention <= b.at || b.at + c.retention <= a.at)
  }

  /** Every attempt in flight holds its own reservation. */
  predicate Reservations(c: Config, clock: u64, store: Store, inFlight: map<nat, Attempt>) {
    forall id | id in inFlight :: Covered(c, inFlight[id], clock) && OwnReservation(c, clock, store, inFlight[id])
  }

  /** Every redeemed nonce stays committed while its token may be presented. */
  predicate Commitments(c: Config, clock: u64, store: Store, redeemed: seq<Attempt>) {
    forall i | 0 <= i < |redeemed| :: Covered(c, redeemed[i], clock) && KeptCommitted(c, clock, store, redeemed[i])
  }

  predicate AllApart(c: Config, inFlight: map<nat, Attempt>) {
    forall k, l | k in inFlight && l in inFlight && k != l :: Apart(c, inFlight[k], inFlight[l])
  }

  predicate NotYetRedeemed(inFlight: map<nat, Attempt>, redeemed: seq<Attempt>) {
    forall k, i | k in inFlight && 0 <= i < |redeemed| :: inFlight[k].token != redeemed[i].token
  }

  predicate NoneTwice(redeemed: seq<Attempt>) {
    forall i, j | 0 <= i < j < |redeemed| :: redeemed[i].token != redeemed[j].token
  }

  predicate Guarded(c: Config, s: State) {
    && |s.store| <= c.policy.maxNullifiers
    && Reservations(c, s.clock, s.store, s.inFlight) && Commitments(c, s.clock, s.store, s.redeemed)
    && AllApart(c, s.inFlight) && NotYetRedeemed(s.inFlight, s.redeemed) && NoneTwice(s.redeemed)
  }

  lemma StoreSizes(store: Store, nonce: Nonce, e: Entry, now: u64)
    ensures |Unexpired(store, now)| <= |store|
    ensures nonce !in store ==> |store[nonce := e]| == |store| + 1
    ensures nonce in store ==> |store[nonce := e]| == |store|
    ensures |store - {nonce}| <= |store|
  {
    var live := Unexpired(store, now);
    assert live.Keys <= store.Keys;
    SubsetSize(live.Keys, store.Keys);
    assert |live| == |live.Keys| && |store| == |store.Keys|;
    assert store[nonce := e].Keys == store.Keys + {nonce};
    assert |store[nonce := e]| == |store[nonce := e].Keys|;
    assert (store - {nonce}).Keys == store.Keys - {nonce};
    assert |store - {nonce}| == |(store - {nonce}).Keys|;
  }

  /** What has not expired at `t` is kept as it was, but perhaps for the nonces in `but`. */
  predicate Retains(store: Store, kept: Store, t: u64, but: set<Nonce>) {
    forall m | m in store && store[m].expiry > t && m !in but :: m in kept && kept[m] == store[m]
  }

  predicate Untouched(c: Config, t: u64, inFlight: map<nat, Attempt>, redeemed: seq<Attempt>, ns: set<Nonce>) {
    && (forall id | id in inFlight && Standing(c, inFlight[id], t) :: inFlight[id].token.nonce !in ns)
    && (forall i | 0 <= i < |redeemed| && t < Ends(c, redeemed[i].token) :: redeemed[i].token.nonce !in ns)
  }

  /** Time passing and a change at a nonce nobody relies on disturb nothing that still matters. */
  lemma RetainingKeeps(
    c: Config, clock: u64, t: u64, store: Store, kept: Store, ns: set<Nonce>, inFlight: map<nat, Attempt>,
    redeemed: seq<Attempt>)
    requires Reservations(c, clock, store, inFlight) && Commitments(c, clock, store, redeemed)
    requires clock <= t && Retains(store, kept, t, ns) && Untouched(c, t, inFlight, redeemed, ns)
    ensures Reservations(c, t, kept, inFlight) && Commitments(c, t, kept, redeemed)
  {
    forall id | id in inFlight ensures Covered(c, inFlight[id], t) && OwnReservation(c, t, kept, inFlight[id]) {
      assert OwnReservation(c, clock, store, inFlight[id]);
    }
    forall i | 0 <= i < |redeemed| ensures Covered(c, redeemed[i], t) && KeptCommitted(c, t, kept, redeemed[i]) {
      assert KeptCommitted(c, clock, store, redeemed[i]);
    }
  }

  /** A nonce free to be reserved is relied on by nobody, and its token is new. */
  lemma ReservedIsNew(c: Config, s: State, token: Token, t: u64)
    requires Guarded(c, s) && s.clock <= t < Ends(c, token)
    requires Reserves(c, s.store, token.nonce, t)
    ensures Untouched(c, t, s.inFlight, s.redeemed, {token.nonce})
    ensures forall id | id in s.inFlight :: s.inFlight[id].token != token
    ensures forall i | 0 <= i < |s.redeemed| :: s.redeemed[i].token != token
  {
    forall id | id in s.inFlight
      ensures s.inFlight[id].token != token
              && (Standing(c, s.inFlight[id], t) ==> s.inFlight[id].token.nonce != token.nonce)
    {
      assert OwnReservation(c, s.clock, s.store, s.inFlight[id]);
    }
    forall i | 0 <= i < |s.redeemed|
      ensures s.redeemed[i].token != token
      ensures t < Ends(c, s.redeemed[i].token) ==> s.redeemed[i].token.nonce != token.nonce
    {
      assert KeptCommitted(c, s.clock, s.store, s.redeemed[i]);
    }
  }

  lemma PresentKeepsGuarded(c: Config, s: State, step: Step)
    requires ValidPolicy(c.policy) && LongEnough(c)
    requires step.Present? && Guarded(c, s) && Timely(c, s, step)
    requires step.id !in s.inFlight && Presentable(c, step) && Reserves(c, s.store, step.token.nonce, step.reading)
    ensures Guarded(c, Take(c, s, step))
  {
    var t, token := step.reading, step.token;
    var a, kept := Attempt(token, t), Reserve(c, s.store, token.nonce, t);
    assert Covered(c, a, t) by {
      CurrentScopeEndsSoon(c.policy, step.now);
      EpochExactly(c.policy, step.now);
    }
    assert |kept| <= c.policy.maxNullifiers by {
      StoreSizes(Unexpired(s.store, t), token.nonce, Entry(false, SaturatingAdd(t, c.retention)), t);
    }
    ReservedIsNew(c, s, token, t);
    RetainingKeeps(c, s.clock, t, s.store, kept, {token.nonce}, s.inFlight, s.redeemed);
    AttemptJoins(c, t, kept, s.inFlight, s.redeemed, step.id, a);
  }

  lemma AttemptJoins(
    c: Config, t: u64, store: Store, inFlight: map<nat, Attempt>, redeemed: seq<Attempt>, id: nat, a: Attempt)
    requires Reservations(c, t, store, inFlight) && AllApart(c, inFlight) && NotYetRedeemed(inFlight, redeemed)
    requires id !in inFlight && a.at == t < U64_MAX && Covered(c, a, t) && OwnReservation(c, t, store, a)
    requires Untouched(c, t, inFlight, redeemed, {a.token.nonce})
    requires forall k | k in inFlight :: inFlight[k].token != a.token
    requires forall i | 0 <= i < |redeemed| :: redeemed[i].token != a.token
    ensures Reservations(c, t, store, inFlight[id := a]) && AllApart(c, inFlight[id := a])
    ensures NotYetRedeemed(inFlight[id := a], redeemed)
  {
    var joined := inFlight[id := a];
    forall k, l | k in joined && l in joined && k != l ensures Apart(c, joined[k], joined[l]) {
      assert k != id ==> Covered(c, joined[k], t);
      assert l != id ==> Covered(c, joined[l], t);
    }
  }

  lemma SettleKeepsGuarded(c: Config, s: State, step: Step)
    requires ValidPolicy(c.policy) && LongEnough(c)
    requires step.Settle? && step.id in s.inFlight && Guarded(c, s) && Timely(c, s, step)
    ensures Guarded(c, Take(c, s, step))
  {
    var a, t, left := s.inFlight[step.id], step.reading, s.inFlight - {step.id};
    var n := a.token.nonce;
    var kept := if step.valid then Commit(s.store, n) else Release(s.store, n);
    SettlingShrinks(s.store, n);
    OthersKept(c, s, step.id, t, kept);
    if step.valid {
      OwnKept(c, s, step.id, t);
      RedemptionJoins(c, t, kept, s.inFlight, s.redeemed, step.id);
    }
    hide Reservations, Commitments, AllApart, NotYetRedeemed, NoneTwice, LongEnough, Commit, Release;
  }

  /** What settling leaves of the others. */
  lemma OthersKept(c: Config, s: State, id: nat, t: u64, kept: Store)
    requires LongEnough(c) && Guarded(c, s) && id in s.inFlight
    requires s.clock <= t < SaturatingAdd(s.inFlight[id].at, c.delay)
    requires var n := s.inFlight[id].token.nonce; kept == Commit(s.store, n) || kept == Release(s.store, n)
    ensures var left := s.inFlight - {id};
            && Reservations(c, t, kept, left) && Commitments(c, t, kept, s.redeemed)
            && AllApart(c, left) && NotYetRedeemed(left, s.redeemed)
            && forall k | k in s.inFlight && k != id :: s.inFlight[k].token != s.inFlight[id].token
  {
    var n, left := s.inFlight[id].token.nonce, s.inFlight - {id};
    var ns := if n in s.store && s.store[n].committed then {} else {n};
    SettledAlone(c, s, id, t);
    assert Reservations(c, s.clock, s.store, left) && AllApart(c, left);
    hide LongEnough, Untouched, Covered, OwnReservation, KeptCommitted;
    RetainingKeeps(c, s.clock, t, s.store, kept, ns, left, s.redeemed);
  }

  /** What settling leaves of an attempt that succeeds. */
  lemma OwnKept(c: Config, s: State, id: nat, t: u64)
    requires Guarded(c, s) && id in s.inFlight && s.clock <= t
    ensures var a := s.inFlight[id]; Covered(c, a, t) && KeptCommitted(c, t, Commit(s.store, a.token.nonce), a)
  {
    var a := s.inFlight[id];
    assert Covered(c, a, s.clock) && OwnReservation(c, s.clock, s.store, a);
  }

  lemma RedemptionJoins(c: Config, t: u64, store: Store, inFlight: map<nat, Attempt>, redeemed: seq<Attempt>, id: nat)
    requires id in inFlight && Covered(c, inFlight[id], t) && KeptCommitted(c, t, store, inFlight[id])
    requires Commitments(c, t, store, redeemed) && NotYetRedeemed(inFlight, redeemed) && NoneTwice(redeemed)
    requires forall k | k in inFlight && k != id :: inFlight[k].token != inFlight[id].token
    ensures Commitments(c, t, store, redeemed + [inFlight[id]]) && NoneTwice(redeemed + [inFlight[id]])
    ensures NotYetRedeemed(inFlight - {id}, redeemed + [inFlight[id]])
  {
  }

  /**
   * When an attempt settles, no other standing attempt has its nonce; and unless the nonce is already
   * committed, no redemption whose token may still be presented has it.
   */
  lemma SettledAlone(c: Config, s: State, id: nat, t: u64)
    requires LongEnough(c) && Guarded(c, s) && id in s.inFlight
    requires s.clock <= t < SaturatingAdd(s.inFlight[id].at, c.delay)
    ensures var n := s.inFlight[id].token.nonce;
            Untouched(c, t, s.inFlight - {id}, s.redeemed, if n in s.store && s.store[n].committed then {} else {n})
  {
    var a, left := s.inFlight[id], s.inFlight - {id};
    assert Covered(c, a, s.clock);
    forall k | k in left && Standing(c, left[k], t) ensures left[k].token.nonce != a.token.nonce {
      assert Apart(c, s.inFlight[k], a) && Covered(c, s.inFlight[k], s.clock);
    }
    forall i | 0 <= i < |s.redeemed| && t < Ends(c, s.redeemed[i].token)
      ensures s.redeemed[i].token.nonce in s.store && s.store[s.redeemed[i].token.nonce].committed
    {
      assert KeptCommitted(c, s.clock, s.store, s.redeemed[i]);
    }
  }

  /** Time passing, with or without a sweep of the store. */
  lemma TimePasses(c: Config, s: State, t: u64, sweep: bool)
    requires Guarded(c, s) && s.clock <= t
    ensures Guarded(c, s.(clock := t, store := if sweep then Unexpired(s.store, t) else s.store))
  {
    var kept := if sweep then Unexpired(s.store, t) else s.store;
    StoreSizes(s.store, [], Entry(false, 0), t);
    RetainingKeeps(c, s.clock, t, s.store, kept, {}, s.inFlight, s.redeemed);
  }

  /** Every timely step keeps the store guarded. */
  lemma StepKeepsGuarded(c: Config, s: State, step: Step)
    requires ValidPolicy(c.policy) && LongEnough(c)
    requires Guarded(c, s) && Timely(c, s, step)
    ensures Guarded(c, Take(c, s, step))
  {
    hide Guarded;
    TimePasses(c, s, step.reading, false);
    TimePasses(c, s, step.reading, true);
    if step.Settle? {
      if step.id in s.inFlight { SettleKeepsGuarded(c, s, step); }
    } else if step.id !in s.inFlight && Presentable(c, step) && Reserves(c, s.store, step.token.nonce, step.reading) {
      PresentKeepsGuarded(c, s, step);
    }
  }

  const START := State(0, map[], map[], [])

  function Run(c: Config, s: State, steps: seq<Step>): State
    requires ValidPolicy(c.policy)
    decreases |steps|
  {
    if steps == [] then s else Run(c, Take(c, s, steps[0]), steps[1..])
  }

  predicate TimelyRun(c: Config, s: State, steps: seq<Step>)
    requires ValidPolicy(c.policy)
    decreases |steps|
  {
    steps != [] ==> Timely(c, s, steps[0]) && TimelyRun(c, Take(c, s, steps[0]), steps[1..])
  }

  lemma {:induction false} RunKeepsGuarded(c: Config, s: State, steps: seq<Step>)
    requires ValidPolicy(c.policy) && LongEnough(c)
    requires Guarded(c, s) && TimelyRun(c, s, steps)
    ensures Guarded(c, Run(c, s, steps))
    decreases |steps|
  {
    if steps != [] {
      StepKeepsGuarded(c, s, steps[0]);
      RunKeepsGuarded(c, Take(c, s, steps[0]), steps[1..]);
    }
  }

  /**
   * On every timely run, with any number of redemptions interleaved and any refused presentations
   * among them, no token is redeemed twice.
   */
  lemma NoTokenRedeemedTwice(c: Config, steps: seq<Step>)
    requires ValidPolicy(c.policy) && LongEnough(c) && TimelyRun(c, START, steps)
    ensures NoneTwice(Run(c, START, steps).redeemed)
  {
    RunKeepsGuarded(c, START, steps);
  }

  /** The store stays within its bound on every run, timely or not. */
  lemma {:induction false} StoreStaysBounded(c: Config, s: State, steps: seq<Step>)
    requires ValidPolicy(c.policy) && |s.store| <= c.policy.maxNullifiers
    ensures |Run(c, s, steps).store| <= c.policy.maxNullifiers
    decreases |steps|
  {
    if steps != [] {
      StepStaysBounded(c, s, steps[0]);
      StoreStaysBounded(c, Take(c, s, steps[0]), steps[1..]);
    }
  }

  lemma StepStaysBounded(c: Config, s: State, step: Step)
    requires ValidPolicy(c.policy) && |s.store| <= c.policy.maxNullifiers
    ensures |Take(c, s, step).store| <= c.policy.maxNullifiers
  {
    if step.Present? {
      ReserveStaysBounded(c, s.store, step.token.nonce, step.reading);
    } else if step.id in s.inFlight {
      SettlingShrinks(s.store, s.inFlight[step.id].token.nonce);
    }
    hide Presentable, Reserves, Reserve, Commit, Release;
  }

  lemma ReserveStaysBounded(c: Config, store: Store, nonce: Nonce, t: u64)
    requires |store| <= c.policy.maxNullifiers
    ensures |Reserve(c, store, nonce, t)| <= c.policy.maxNullifiers
  {
    StoreSizes(store, nonce, Entry(false, 0), t);
    StoreSizes(Unexpired(store, t), nonce, Entry(false, SaturatingAdd(t, c.retention)), t);
    hide Unexpired;
  }

  lemma SettlingShrinks(store: Store, nonce: Nonce)
    ensures |Commit(store, nonce)| <= |store| && |Release(store, nonce)| <= |store|
  {
    if nonce in store { StoreSizes(store, nonce, store[nonce].(committed := true), 0); }
    hide Unexpired;
  }

  /** One clock that never goes back for caller and store, with every settlement within the retention. */
  function OneClock(p: Policy): Config {
    Config(p, p.epochSeconds, 0, p.epochSeconds)
  }

  /**
   * With one clock and the retention the verifier uses, no token is redeemed twice, whatever is
   * presented and however often: forged, expired and replayed tokens included.
   */
  lemma OneClockRedeemsOnce(p: Policy, steps: seq<Step>)
    requires ValidPolicy(p) && TimelyRun(OneClock(p), START, steps)
    ensures NoneTwice(Run(OneClock(p), START, steps).redeemed)
  {
    NoTokenRedeemedTwice(OneClock(p), steps);
  }

  /** A presentation of an expired token changes nothing but the time. */
  lemma ExpiredIsRefused(c: Config, s: State, step: Step)
    requires ValidPolicy(c.policy) && step.Present? && step.token.scope.expiresAt <= step.now
    ensures Take(c, s, step) == s.(clock := step.reading)
  {
    if Presentable(c, step) { CurrentScopeEndsSoon(c.policy, step.now); }
  }

  /** The attempt was presented in order, and settled later with a valid signature. */
  ghost predicate Earned(c: Config, steps: seq<Step>, a: Attempt)
    requires ValidPolicy(c.policy)
  {
    exists i, j :: 0 <= i < j < |steps| && Opens(c, steps[i], steps[j].id, a) && steps[j].Settle? && steps[j].valid
  }

  predicate Opens(c: Config, step: Step, id: nat, a: Attempt)
    requires ValidPolicy(c.policy)
  {
    step.Present? && step.id == id && step.token == a.token && step.reading == a.at && Presentable(c, step)
  }

  lemma {:induction false} RunLast(c: Config, s: State, steps: seq<Step>)
    requires ValidPolicy(c.policy) && steps != []
    ensures var n := |steps| - 1; Run(c, s, steps) == Take(c, Run(c, s, steps[..n]), steps[n])
    decreases |steps|
  {
    hide Take;
    var n := |steps| - 1;
    if n > 0 {
      RunLast(c, Take(c, s, steps[0]), steps[1..]);
      assert steps[1..][..n - 1] == steps[..n][1..] && steps[..n][0] == steps[0];
    }
  }

  /** Every attempt in flight or redeemed goes back to its own steps, timely or not. */
  lemma {:induction false} RedemptionIsEarned(c: Config, steps: seq<Step>)
    requires ValidPolicy(c.policy)
    ensures forall i | 0 <= i < |Run(c, START, steps).redeemed| :: Earned(c, steps, Run(c, START, steps).redeemed[i])
    ensures forall id | id in Run(c, START, steps).inFlight ::
              exists i :: 0 <= i < |steps| && Opens(c, steps[i], id, Run(c, START, steps).inFlight[id])
    decreases |steps|
  {
    if steps != [] {
      var n := |steps| - 1;
      RunLast(c, START, steps);
      RedemptionIsEarned(c, steps[..n]);
      StepIsEarned(c, Run(c, START, steps[..n]), steps);
    }
  }

  lemma StepIsEarned(c: Config, s: State, steps: seq<Step>)
    requires ValidPolicy(c.policy) && steps != []
    requires forall i | 0 <= i < |s.redeemed| :: Earned(c, steps[..|steps| - 1], s.redeemed[i])
    requires forall id | id in s.inFlight :: exists i :: 0 <= i < |steps| - 1 && Opens(c, steps[i], id, s.inFlight[id])
    ensures var s' := Take(c, s, steps[|steps| - 1]);
            && (forall i | 0 <= i < |s'.redeemed| :: Earned(c, steps, s'.redeemed[i]))
            && (forall id | id in s'.inFlight ::
                  exists i :: 0 <= i < |steps| && Opens(c, steps[i], id, s'.inFlight[id]))
  {
    var n := |steps| - 1;
    var s', step := Take(c, s, steps[n]), steps[n];
    forall i | 0 <= i < |s'.redeemed| ensures Earned(c, steps, s'.redeemed[i]) {
      if i < |s.redeemed| {
        var k, l :| 0 <= k < l < n && Opens(c, steps[..n][k], steps[..n][l].id, s.redeemed[i])
                    && steps[..n][l].Settle? && steps[..n][l].valid;
        assert Opens(c, steps[k], steps[l].id, s'.redeemed[i]);
      } else {
        var k :| 0 <= k < n && Opens(c, steps[k], step.id, s.inFlight[step.id]);
        assert Opens(c, steps[k], steps[n].id, s'.redeemed[i]);
      }
    }
    forall id | id in s'.inFlight ensures exists i :: 0 <= i < |steps| && Opens(c, steps[i], id, s'.inFlight[id]) {
      if id !in s.inFlight { assert Opens(c, steps[n], id, s'.inFlight[id]); }
    }
  }

  // ----- What the conditions are for -----

  function FirstToken(p: Policy, nonce: Nonce, network: string, permission: string, keyId: Digest): Token {
    Token(nonce, Scope(PROTOCOL_VERSION, network, permission, 0, p.epochSeconds, keyId))
  }

  function Showing(id: nat, token: Token, now: u64, reading: u64): Step {
    Present(id, token, token.scope.networkId, token.scope.permission, true, now, reading)
  }

  lemma {:induction false} RunOne(c: Config, s: State, step: Step, rest: seq<Step>)
    requires ValidPolicy(c.policy)
    ensures Run(c, s, [step] + rest) == Run(c, Take(c, s, step), rest)
    ensures TimelyRun(c, s, [step] + rest) <==> Timely(c, s, step) && TimelyRun(c, Take(c, s, step), rest)
  {
    assert ([step] + rest)[1..] == rest;
  }

  lemma RunFour(c: Config, s: State, a: Step, b: Step, d: Step, e: Step)
    requires ValidPolicy(c.policy)
    ensures var s1 := Take(c, s, a); var s2 := Take(c, s1, b); var s3 := Take(c, s2, d);
            && Run(c, s, [a, b, d, e]) == Take(c, s3, e)
            && (TimelyRun(c, s, [a, b, d, e]) <==>
                Timely(c, s, a) && Timely(c, s1, b) && Timely(c, s2, d) && Timely(c, s3, e))
  {
    hide Take, Timely;
    var s1 := Take(c, s, a);
    var s2 := Take(c, s1, b);
    var s3 := Take(c, s2, d);
    RunOne(c, s, a, [b, d, e]);
    RunOne(c, s1, b, [d, e]);
    RunOne(c, s2, d, [e]);
    RunOne(c, s3, e, []);
    assert [a, b, d, e] == [a] + [b, d, e] && [b, d, e] == [b] + [d, e] && [d, e] == [d] + [e] && [e] == [e] + [];
  }

  lemma RunSix(c: Config, s: State, a: Step, b: Step, d: Step, e: Step, f: Step, g: Step)
    requires ValidPolicy(c.policy)
    ensures var s1 := Take(c, s, a); var s2 := Take(c, s1, b); var s3 := Take(c, s2, d); var s4 := Take(c, s3, e);
            var s5 := Take(c, s4, f);
            && Run(c, s, [a, b, d, e, f, g]) == Take(c, s5, g)
            && (TimelyRun(c, s, [a, b, d, e, f, g]) <==>
                && Timely(c, s, a) && Timely(c, s1, b) && Timely(c, s2, d) && Timely(c, s3, e)
                && Timely(c, s4, f) && Timely(c, s5, g))
  {
    hide Take, Timely;
    var s1 := Take(c, s, a);
    RunOne(c, s, a, [b, d, e, f, g]);
    RunOne(c, s1, b, [d, e, f, g]);
    RunFour(c, Take(c, s1, b), d, e, f, g);
    assert [a, b, d, e, f, g] == [a] + [b, d, e, f, g] && [b, d, e, f, g] == [b] + [d, e, f, g];
  }

  /** Presenting a current token whose nonce is free, and settling it at once, redeems it. */
  lemma FreeTokenRedeems(c: Config, s: State, id: nat, token: Token, now: u64, t: u64)
    requires ValidPolicy(c.policy)
    requires ValidScope(token.scope) && Current(c, token, now) && id !in s.inFlight
    requires Reserves(c, s.store, token.nonce, t)
    ensures var s1 := Take(c, s, Showing(id, token, now, t)); var s2 := Take(c, s1, Settle(id, true, t));
            && s2 == State(t, Unexpired(s.store, t)[token.nonce := Entry(true, SaturatingAdd(t, c.retention))],
                           s.inFlight, s.redeemed + [Attempt(token, t)])
            && s1.clock == t && id in s1.inFlight && s1.inFlight[id].at == t
  {
    var live, n := Unexpired(s.store, t), token.nonce;
    var s1 := Take(c, s, Showing(id, token, now, t));
    assert s1 == State(t, live[n := Entry(false, SaturatingAdd(t, c.retention))],
                       s.inFlight[id := Attempt(token, t)], s.redeemed);
    assert s1.inFlight - {id} == s.inFlight;
    assert Commit(s1.store, n) == live[n := Entry(true, SaturatingAdd(t, c.retention))];
  }

  lemma FirstEpoch(p: Policy, now: u64)
    requires ValidPolicy(p) && now < p.epochSeconds
    ensures Epoch(p, now) == Some((0, p.epochSeconds))
  {
    assert now / p.epochSeconds == 0;
  }

  lemma SecondEpoch(p: Policy)
    requires ValidPolicy(p) && 2 * p.epochSeconds <= U64_MAX
    ensures Epoch(p, p.epochSeconds) == Some((1, 2 * p.epochSeconds))
  {
    assert p.epochSeconds / p.epochSeconds == 1;
  }

  /** The token is redeemed at time 0 and again, asked for at `now`, when the store reads `t`. */
  lemma RedeemedAgain(c: Config, token: Token, now: u64, t: u64) returns (steps: seq<Step>)
    requires ValidPolicy(c.policy) && c.delay > 0
    requires ValidScope(token.scope) && token.scope.epoch == 0 && token.scope.expiresAt == c.policy.epochSeconds
    requires now <= t <= now + c.lag && now < c.policy.epochSeconds && c.retention <= t < U64_MAX
    ensures TimelyRun(c, START, steps) && !NoneTwice(Run(c, START, steps).redeemed)
  {
    hide Take;
    var a, b, d, e := Showing(0, token, 0, 0), Settle(0, true, 0), Showing(1, token, now, t), Settle(1, true, t);
    steps := [a, b, d, e];
    RunFour(c, START, a, b, d, e);
    FirstEpoch(c.policy, 0);
    FirstEpoch(c.policy, now);
    assert Unexpired(START.store, 0) == map[];
    FreeTokenRedeems(c, START, 0, token, 0, 0);
    var s2 := Take(c, Take(c, START, a), b);
    assert Unexpired(s2.store, t) == map[];
    FreeTokenRedeems(c, s2, 1, token, now, t);
    var redeemed := Run(c, START, steps).redeemed;
    assert redeemed[0].token == redeemed[1].token;
  }

  /**
   * A retention shorter than an epoch and the callers' lag together: the nonce is forgotten while its
   * token may still be presented, and the token is redeemed twice.
   */
  lemma ForgottenNonceRedeemsTwice(c: Config) returns (steps: seq<Step>)
    requires ValidPolicy(c.policy) && c.delay > 0 && c.retention < U64_MAX
    requires c.retention < c.policy.epochSeconds + c.lag
    ensures TimelyRun(c, START, steps) && !NoneTwice(Run(c, START, steps).redeemed)
  {
    var token := FirstToken(c.policy, [], "n", "p", seq(32, _ => 0));
    steps := RedeemedAgain(c, token, SaturatingSub(c.retention, c.lag), c.retention);
  }

  lemma FreeTokenReserves(c: Config, s: State, id: nat, token: Token, now: u64, t: u64)
    requires ValidPolicy(c.policy)
    requires ValidScope(token.scope) && Current(c, token, now) && id !in s.inFlight && Unexpired(s.store, t) == map[]
    ensures Take(c, s, Showing(id, token, now, t)) ==
            State(t, map[token.nonce := Entry(false, SaturatingAdd(t, c.retention))],
                  s.inFlight[id := Attempt(token, t)], s.redeemed)
  {
  }

  /**
   * A settlement after its reservation has expired: released late, one redemption frees the nonce
   * another has reserved since, and that other's token is redeemed twice.
   */
  lemma LateSettlementRedeemsTwice(c: Config) returns (steps: seq<Step>)
    requires ValidPolicy(c.policy) && c.retention < c.delay && c.retention < LastExpiry(c.policy) + c.lag
    ensures TimelyRun(c, START, steps) && !NoneTwice(Run(c, START, steps).redeemed)
  {
    hide Take;
    var t, r := c.retention, SaturatingAdd(c.retention, c.retention);
    EpochExactly(c.policy, 0);
    var now := if t < LastExpiry(c.policy) then t else LastExpiry(c.policy) - 1;
    EpochExactly(c.policy, now);
    var epoch := Epoch(c.policy, now).value;
    var first := FirstToken(c.policy, [], "n", "p", seq(32, _ => 0));
    var second := first.(scope := first.scope.(epoch := epoch.0, expiresAt := epoch.1));
    var a, b, d := Showing(0, first, 0, 0), Showing(1, second, now, t), Settle(0, false, t);
    var e, f, g := Showing(2, second, now, t), Settle(1, true, t), Settle(2, true, t);
    steps := [a, b, d, e, f, g];
    FirstEpoch(c.policy, 0);
    var x, y := Attempt(first, 0), Attempt(second, t);
    var held: Store := map[[] := Entry(false, r)];
    var s1 := State(0, map[[] := Entry(false, t)], map[0 := x], []);
    var s2 := State(t, held, map[0 := x, 1 := y], []);
    var s3 := State(t, map[], map[1 := y], []);
    var s4 := State(t, held, map[1 := y, 2 := y], []);
    assert Take(c, START, a) == s1 by { FreeTokenReserves(c, START, 0, first, 0, 0); }
    assert Take(c, s1, b) == s2 by {
      assert Unexpired(s1.store, t) == map[];
      FreeTokenReserves(c, s1, 1, second, now, t);
    }
    assert Take(c, s2, d) == s3 by { Released(c, s2, 0, t, s3); }
    assert Take(c, s3, e) == s4 by { FreeTokenReserves(c, s3, 2, second, now, t); }
    var s5 := Take(c, s4, f);
    Settled(c, s4, 1, t);
    Settled(c, s5, 2, t);
    RunSix(c, START, a, b, d, e, f, g);
    var redeemed := Run(c, START, steps).redeemed;
    assert redeemed[0].token == redeemed[1].token;
  }

  /** With no time for it, no redemption settles. */
  lemma {:induction false} NothingSettles(c: Config, s: State, steps: seq<Step>)
    requires ValidPolicy(c.policy) && c.delay == 0 && TimelyRun(c, s, steps)
    requires s.redeemed == [] && forall id | id in s.inFlight :: s.inFlight[id].at <= s.clock
    ensures Run(c, s, steps).redeemed == []
    decreases |steps|
  {
    if steps != [] {
      NothingSettles(c, Take(c, s, steps[0]), steps[1..]);
      hide Presentable, Reserves, Reserve;
    }
  }

  /**
   * Whatever the policy, the retention and the callers' punctuality: every timely run redeems each
   * token at most once exactly when redemptions never settle, or nonces are retained for an epoch and
   * the lag together, and for every settlement or beyond the last presentation.
   */
  lemma RedeemsOnceExactly(c: Config)
    requires ValidPolicy(c.policy)
    ensures (forall steps | TimelyRun(c, START, steps) :: NoneTwice(Run(c, START, steps).redeemed)) <==>
            c.delay == 0 || LongEnough(c)
  {
    if c.delay == 0 {
      forall steps | TimelyRun(c, START, steps) ensures NoneTwice(Run(c, START, steps).redeemed) {
        NothingSettles(c, START, steps);
      }
    } else if LongEnough(c) {
      forall steps | TimelyRun(c, START, steps) ensures NoneTwice(Run(c, START, steps).redeemed) {
        NoTokenRedeemedTwice(c, steps);
      }
    } else if c.retention < U64_MAX && c.retention < c.policy.epochSeconds + c.lag {
      var steps := ForgottenNonceRedeemsTwice(c);
    } else {
      var steps := LateSettlementRedeemsTwice(c);
    }
  }

  lemma Released(c: Config, s: State, id: nat, t: u64, after: State)
    requires ValidPolicy(c.policy) && id in s.inFlight
    requires var n := s.inFlight[id].token.nonce; n in s.store && !s.store[n].committed && after.store == s.store - {n}
    requires after.clock == t && after.inFlight == s.inFlight - {id} && after.redeemed == s.redeemed
    ensures Take(c, s, Settle(id, false, t)) == after
  {
  }

  lemma Settled(c: Config, s: State, id: nat, t: u64)
    requires ValidPolicy(c.policy) && id in s.inFlight
    ensures var s' := Take(c, s, Settle(id, true, t));
            s'.clock == t && s'.inFlight == s.inFlight - {id} && s'.redeemed == s.redeemed + [s.inFlight[id]]
  {
  }

  // ----- In place -----

  /** The verifier's nonce table, swept, filled and settled in place. */
  class NonceStore {
    var values: Store
    const config: Config

    constructor (config: Config)
      ensures this.config == config && values == START.store
    {
      this.config := config;
      values := map[];
    }

    method TryReserve(nonce: Nonce, now: u64) returns (ok: bool)
      modifies this
      ensures ok == Reserves(config, old(values), nonce, now)
      ensures values == Reserve(config, old(values), nonce, now)
    {
      values := map n | n in values && values[n].expiry > now :: values[n];
      ok := nonce !in values && |values| < config.policy.maxNullifiers;
      if ok { values := values[nonce := Entry(false, SaturatingAdd(now, config.retention))]; }
    }

    method MarkCommitted(nonce: Nonce)
      modifies this
      ensures values == Commit(old(values), nonce)
    {
      if nonce in values { values := values[nonce := values[nonce].(committed := true)]; }
    }

    method ReleaseReserved(nonce: Nonce)
      modifies this
      ensures values == Release(old(values), nonce)
    {
      if nonce in values && !values[nonce].committed { values := values - {nonce}; }
    }
  }
}
