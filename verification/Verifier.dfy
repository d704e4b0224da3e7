/**
 * The offline verifier: scope keys and nonce store together, one redemption from the presented bytes
 * to its answer.
 */
module Verifier {
  import opened Common
  import opened AnonymousAuth
  import opened ScopeKeys

  const PUBLIC_TOKEN_BYTES: nat := 354

  /** A decoded token: its nonce, the key and scope it claims, and its authenticator. */
  datatype Fields = Fields(nonce: Nonce, keyId: Digest, challenge: Digest, authenticator: Bytes)

  datatype Presentation = Presentation(scope: Scope, token: Bytes)

  /** Hashing, decoding and signature checks, as abstract functions. */
  datatype Scheme = Scheme(
    keyId: Key -> Digest,
    truncated: Digest -> byte,
    challenge: Scope -> Digest,
    decode: Bytes -> Option<Fields>,
    verifies: (Key, Fields) -> bool)
  {
    function Short(k: Key): byte { truncated(keyId(k)) }
  }

  datatype Outcome = Accepted | InvalidScope | Expired | InvalidEncoding | ReplayOrCapacity | VerificationFailed

  /** What the verifier keeps. */
  datatype Held = Held(ring: Ring, store: Store)

  /** What a sweep leaves, as a function. */
  function Sweep(r: Ring, now: u64): Ring {
    var gone := ExpiredKeys(r.descriptors, now);
    Ring(Running(r.descriptors, now),
         map id | id in r.keys && Without(r.keys[id], gone) != [] :: Without(r.keys[id], gone))
  }

  lemma SweepIsSwept(r: Ring, now: u64)
    ensures Swept(r, Sweep(r, now), now)
  {
    var gone := ExpiredKeys(r.descriptors, now);
    forall id: byte ensures Bucket(Sweep(r, now).keys, id) == Without(Bucket(r.keys, id), gone) {
    }
  }

  /** The checks before the ring is looked at. */
  function Entrance(c: Config, scope: Scope, network: string, permission: string, now: u64): Option<Outcome>
    requires ValidPolicy(c.policy)
  {
    if !ValidScope(scope) || scope.networkId != network || scope.permission != permission then Some(InvalidScope)
    else
      match Epoch(c.policy, now)
      case None => Some(InvalidScope)
      case Some((epoch, expiry)) => if scope.epoch != epoch || scope.expiresAt != expiry then Some(Expired) else None
  }

  /** The checks of the token against its scope's descriptor. */
  function Reading(x: Scheme, ring: Ring, p: Presentation): Result<Fields, Outcome> {
    if |p.token| != PUBLIC_TOKEN_BYTES then Err(InvalidEncoding)
    else if p.scope !in ring.descriptors then Err(InvalidScope)
    else if |ring.descriptors[p.scope].key| > 1024 then Err(InvalidEncoding)
    else if x.keyId(ring.descriptors[p.scope].key) != p.scope.issuerKeyId then Err(InvalidScope)
    else
      match x.decode(p.token)
      case None => Err(InvalidEncoding)
      case Some(f) =>
        if f.keyId != p.scope.issuerKeyId || f.challenge != x.challenge(p.scope) then Err(InvalidScope) else Ok(f)
  }

  /**
   * A token is read exactly when it is 354 bytes long and decodes, its scope is in the ring with a key of at
   * most 1,024 bytes and that key's id, and it names that id and the scope's challenge.
   */
  lemma ReadsExactly(x: Scheme, ring: Ring, p: Presentation)
    ensures Reading(x, ring, p).Ok? <==>
            && |p.token| == 354 && p.scope in ring.descriptors && |ring.descriptors[p.scope].key| <= 1024
            && x.keyId(ring.descriptors[p.scope].key) == p.scope.issuerKeyId && x.decode(p.token).Some?
            && x.decode(p.token).value.keyId == p.scope.issuerKeyId
            && x.decode(p.token).value.challenge == x.challenge(p.scope)
    ensures Reading(x, ring, p).Ok? ==> Reading(x, ring, p).value == x.decode(p.token).value
    ensures |p.token| != 354 ==> Reading(x, ring, p) == Err(InvalidEncoding)
    ensures |p.token| == 354 && p.scope !in ring.descriptors ==> Reading(x, ring, p) == Err(InvalidScope)
  {
  }

  /** Some key under the token's truncated id checks it. */
  predicate Checks(x: Scheme, ring: Ring, f: Fields) {
    exists k | k in Bucket(ring.keys, x.truncated(f.keyId)) :: x.verifies(k, f)
  }

  /** The token library's part: reserve the nonce, check the signature, commit or release. */
  function Spend(c: Config, store: Store, nonce: Nonce, reading: u64, checks: bool): (Outcome, Store) {
    var reserved := Reserve(c, store, nonce, reading);
    if !Reserves(c, store, nonce, reading) then (ReplayOrCapacity, reserved)
    else if checks then (Accepted, Commit(reserved, nonce))
    else (VerificationFailed, Release(reserved, nonce))
  }

  function Redeem(
    x: Scheme, c: Config, s: Held, p: Presentation, network: string, permission: string, now: u64, reading: u64)
    : (Outcome, Held)
    requires ValidPolicy(c.policy)
  {
    var refusal := Entrance(c, p.scope, network, permission, now);
    if refusal.Some? then (refusal.value, s)
    else
      var ring := Sweep(s.ring, now);
      match Reading(x, ring, p)
      case Err(outcome) => (outcome, Held(ring, s.store))
      case Ok(f) =>
        var (outcome, store) := Spend(c, s.store, f.nonce, reading, Checks(x, ring, f));
        (outcome, Held(ring, store))
  }

  /** A scope of version 1 for this network and permission, at a time within its own epoch. */
  predicate Enters(p: Policy, scope: Scope, network: string, permission: string, now: u64) {
    && scope.version == 1 && scope.networkId == network && scope.permission == permission
    && 1 <= |network| <= 128 && 1 <= |permission| <= 128
    && scope.epoch * p.epochSeconds <= now < scope.expiresAt == (scope.epoch + 1) * p.epochSeconds
  }

  /**
   * The first checks pass exactly for such a scope. One of another version, network or permission, or at a
   * time past every epoch, is invalid; one at the wrong time is expired.
   */
  lemma EntersExactly(c: Config, scope: Scope, network: string, permission: string, now: u64)
    requires ValidPolicy(c.policy)
    ensures Entrance(c, scope, network, permission, now) ==
            if Enters(c.policy, scope, network, permission, now) then None
            else if scope.version != 1 || scope.networkId != network || scope.permission != permission
                    || !(1 <= |network| <= 128 && 1 <= |permission| <= 128) || now >= LastExpiry(c.policy)
            then Some(InvalidScope) else Some(Expired)
  {
    var seconds := c.policy.epochSeconds;
    EpochExactly(c.policy, now);
    if Entrance(c, scope, network, permission, now) == None {
      EpochBounds(seconds, now);
      assert now / seconds * seconds <= now;
    }
    if Enters(c.policy, scope, network, permission, now) {
      EpochFits(scope.epoch, seconds);
      VettedScopeIsItsEpoch(c, scope, true, now, [], now);
    }
  }

  lemma EpochFits(epoch: u64, seconds: u64)
    requires seconds > 0 && (epoch + 1) * seconds <= U64_MAX
    ensures epoch + 1 <= U64_MAX
  {
    MulMonotone(1, seconds, epoch + 1);
    assert (epoch + 1) * seconds == seconds * (epoch + 1);
  }

  /** The token is whole, names its scope's key and challenge, and that key alone checks it. */
  ghost predicate Honest(x: Scheme, r: Ring, p: Presentation, f: Fields)
    requires p.scope in r.descriptors
  {
    var key := r.descriptors[p.scope].key;
    && |p.token| == PUBLIC_TOKEN_BYTES && x.decode(p.token) == Some(f)
    && |key| <= 1024 && x.keyId(key) == p.scope.issuerKeyId == f.keyId && f.challenge == x.challenge(p.scope)
    && x.verifies(key, f) && forall k | x.verifies(k, f) :: k == key
  }

  /**
   * An honest token of a scope in the ring, presented in its epoch for its network and permission, is
   * accepted exactly when its nonce can be reserved and no scope that has expired shares its key.
   */
  lemma HonestTokenRedeemsExactly(
    x: Scheme, c: Config, s: Held, p: Presentation, f: Fields, network: string, permission: string, now: u64,
    reading: u64)
    requires ValidPolicy(c.policy) && AllServed(x.Short, s.ring) && p.scope in s.ring.descriptors
             && Honest(x, s.ring, p, f)
    requires Enters(c.policy, p.scope, network, permission, now)
    ensures var served := forall t | t in s.ring.descriptors
                && s.ring.descriptors[t].key == s.ring.descriptors[p.scope].key :: t.expiresAt > now;
            Redeem(x, c, s, p, network, permission, now, reading).0 ==
            if !Reserves(c, s.store, f.nonce, reading) then ReplayOrCapacity
            else if served then Accepted else VerificationFailed
  {
    var ring, key := Sweep(s.ring, now), s.ring.descriptors[p.scope].key;
    EntersExactly(c, p.scope, network, permission, now);
    StillThere(c, s.ring, p.scope, network, permission, now);
    SweepIsSwept(s.ring, now);
    HonestReads(x, s.ring, ring, p, f);
    ChecksByOwnKey(x, ring, f, key);
    hide Sweep, Swept, Reading, Checks, Serves, AllServed, Reserves, Reserve, Commit, Release, Entrance, Enters;
    SweepServesExactly(x.Short, s.ring, ring, now, p.scope);
  }

  lemma StillThere(c: Config, r: Ring, scope: Scope, network: string, permission: string, now: u64)
    requires ValidPolicy(c.policy) && scope in r.descriptors && Entrance(c, scope, network, permission, now) == None
    ensures scope in Sweep(r, now).descriptors && Sweep(r, now).descriptors[scope] == r.descriptors[scope]
  {
    CurrentScopeEndsSoon(c.policy, now);
  }

  lemma HonestReads(x: Scheme, r: Ring, ring: Ring, p: Presentation, f: Fields)
    requires p.scope in r.descriptors && Honest(x, r, p, f)
    requires p.scope in ring.descriptors && ring.descriptors[p.scope] == r.descriptors[p.scope]
    ensures Reading(x, ring, p) == Ok(f)
  {
  }

  lemma ChecksByOwnKey(x: Scheme, ring: Ring, f: Fields, key: Key)
    requires x.keyId(key) == f.keyId && x.verifies(key, f) && forall k | x.verifies(k, f) :: k == key
    ensures Checks(x, ring, f) <==> Serves(x.Short, ring.keys, key)
  {
    if key in Bucket(ring.keys, x.truncated(f.keyId)) { assert x.verifies(key, f); }
  }

  /**
   * What is accepted was whole, current and for its scope, and a key of the ring checked it; its nonce
   * is then spent.
   */
  lemma AcceptedIsGenuine(
    x: Scheme, c: Config, s: Held, p: Presentation, network: string, permission: string, now: u64, reading: u64)
    requires ValidPolicy(c.policy) && Redeem(x, c, s, p, network, permission, now, reading).0 == Accepted
    ensures p.scope in s.ring.descriptors && x.decode(p.token).Some?
    ensures var f, after := x.decode(p.token).value, Redeem(x, c, s, p, network, permission, now, reading).1;
            && |p.token| == 354 && p.scope.networkId == network && p.scope.permission == permission
            && now < p.scope.expiresAt
            && f.keyId == p.scope.issuerKeyId == x.keyId(s.ring.descriptors[p.scope].key)
            && f.challenge == x.challenge(p.scope)
            && (exists k, id | k in Bucket(s.ring.keys, id) :: x.verifies(k, f))
            && f.nonce !in Unexpired(s.store, reading)
            && f.nonce in after.store && after.store[f.nonce] == Entry(true, SaturatingAdd(reading, c.retention))
  {
    CurrentScopeEndsSoon(c.policy, now);
    var ring := Sweep(s.ring, now);
    SweepIsSwept(s.ring, now);
    var f := x.decode(p.token).value;
    assert Checks(x, ring, f);
    var k :| k in Bucket(ring.keys, x.truncated(f.keyId)) && x.verifies(k, f);
    WithoutHolds(Bucket(s.ring.keys, x.truncated(f.keyId)), ExpiredKeys(s.ring.descriptors, now), k);
    assert Bucket(ring.keys, x.truncated(f.keyId))
           == Without(Bucket(s.ring.keys, x.truncated(f.keyId)), ExpiredKeys(s.ring.descriptors, now));
  }

  // ----- Runs -----

  /** The nonce a token carries, if it can be decoded. */
  function NonceOf(x: Scheme, p: Presentation): Nonce {
    if x.decode(p.token).Some? then x.decode(p.token).value.nonce else []
  }

  predicate Signed(x: Scheme, ring: Ring, p: Presentation) {
    x.decode(p.token).Some? && Checks(x, ring, x.decode(p.token).value)
  }

  /** The steps of the nonce store's machine for one redemption, with the verifier's checks as theirs. */
  function TwoSteps(
    x: Scheme, c: Config, ring: Ring, m: State, p: Presentation, network: string, permission: string, now: u64,
    reading: u64)
    : State
    requires ValidPolicy(c.policy)
  {
    var swept := Sweep(ring, now);
    var sound := Reading(x, swept, p).Ok?;
    var m1 := Take(c, m, Present(0, Token(NonceOf(x, p), p.scope), network, permission, sound, now, reading));
    Take(c, m1, Settle(0, Signed(x, swept, p), reading))
  }

  /** One redemption is a present and a settle step of that machine, whatever was redeemed before. */
  lemma RedeemIsTwoSteps(
    x: Scheme, c: Config, s: Held, m: State, p: Presentation, network: string, permission: string, now: u64,
    reading: u64)
    requires ValidPolicy(c.policy) && m.store == s.store && m.inFlight == map[]
    ensures var (outcome, after) := Redeem(x, c, s, p, network, permission, now, reading);
            var taken := if outcome == Accepted then [Attempt(Token(NonceOf(x, p), p.scope), reading)] else [];
            TwoSteps(x, c, s.ring, m, p, network, permission, now, reading)
            == State(reading, after.store, map[], m.redeemed + taken)
  {
    hide Sweep, Checks, Reserves, Reserve, Commit, Release;
    var swept := Sweep(s.ring, now);
    var sound := Reading(x, swept, p).Ok?;
    var present := Present(0, Token(NonceOf(x, p), p.scope), network, permission, sound, now, reading);
    assert Presentable(c, present) <==> Entrance(c, p.scope, network, permission, now) == None && sound;
    assert m.redeemed + [] == m.redeemed;
    if Presentable(c, present) {
      var f := Reading(x, swept, p).value;
      assert x.decode(p.token) == Some(f);
      assert map[0 := Attempt(present.token, reading)] - {0} == map[];
    }
  }

  datatype Call =
    | Redemption(p: Presentation, network: string, permission: string, now: u64, reading: u64)
    | Addition(scope: Scope, d: Descriptor, genuine: bool, now: u64)

  function Serve(x: Scheme, c: Config, s: Held, call: Call): Held
    requires ValidPolicy(c.policy)
  {
    match call
    case Redemption(p, network, permission, now, reading) => Redeem(x, c, s, p, network, permission, now, reading).1
    case Addition(scope, d, genuine, now) =>
      if !Vetted(c.policy, scope, genuine, now) then s
      else s.(ring := Offer(Sweep(s.ring, now), k => x.Short(k), c.policy.maxScopeKeys, scope, d).0)
  }

  const NEW := Held(EMPTY, map[])

  /** The verifier after some calls, one after the other. */
  function AfterCalls(x: Scheme, c: Config, calls: seq<Call>): Held
    requires ValidPolicy(c.policy)
  {
    if calls == [] then NEW else Serve(x, c, AfterCalls(x, c, calls[..|calls| - 1]), calls[|calls| - 1])
  }

  /** The tokens the calls accept, in order, with the store's time. */
  function AcceptedBy(x: Scheme, c: Config, calls: seq<Call>): seq<Attempt>
    requires ValidPolicy(c.policy)
  {
    if calls == [] then []
    else
      var front, last := calls[..|calls| - 1], calls[|calls| - 1];
      AcceptedBy(x, c, front) +
      match last {
        case Redemption(p, network, permission, now, reading) =>
          var outcome := Redeem(x, c, AfterCalls(x, c, front), p, network, permission, now, reading).0;
          if outcome == Accepted then [Attempt(Token(NonceOf(x, p), p.scope), reading)] else []
        case Addition(_, _, _, _) => []
      }
  }

  /**
   * A verifier that serves every scope it knows, each with a key of its own, and has room, serves a new one
   * from then on: once its descriptor is added, an honest token of it is accepted in its epoch.
   */
  lemma AddedScopeIsServed(
    x: Scheme, c: Config, s: Held, added: u64, d: Descriptor, p: Presentation, f: Fields, network: string,
    permission: string, now: u64, reading: u64)
    requires ValidPolicy(c.policy) && AllServed(x.Short, s.ring) && OneScopePerKey(s.ring.descriptors)
    requires |s.ring.descriptors| < c.policy.maxScopeKeys && p.scope !in s.ring.descriptors
    requires forall t | t in s.ring.descriptors :: s.ring.descriptors[t].key != d.key
    requires Vetted(c.policy, p.scope, true, added) && Enters(c.policy, p.scope, network, permission, now)
    requires Honest(x, Ring(map[p.scope := d], map[]), p, f) && Reserves(c, s.store, f.nonce, reading)
    ensures var after := Serve(x, c, s, Addition(p.scope, d, true, added));
            && AllServed(x.Short, after.ring) && p.scope in after.ring.descriptors
            && Redeem(x, c, after, p, network, permission, now, reading).0 == Accepted
  {
    var after := Serve(x, c, s, Addition(p.scope, d, true, added));
    AddedToRing(x, c, s, added, p.scope, d);
    assert Honest(x, after.ring, p, f);
    hide Serve, AllServed, OneScopePerKey, Vetted, Reserves, Honest, Enters;
    HonestTokenRedeemsExactly(x, c, after, p, f, network, permission, now, reading);
    EntersInTime(c.policy, p.scope, network, permission, now);
    forall t | t in after.ring.descriptors && after.ring.descriptors[t].key == after.ring.descriptors[p.scope].key
      ensures t.expiresAt > now
    {
      OneKeyOneScope(after.ring.descriptors, t, p.scope);
    }
  }

  lemma AddedToRing(x: Scheme, c: Config, s: Held, now: u64, scope: Scope, d: Descriptor)
    requires ValidPolicy(c.policy) && AllServed(x.Short, s.ring) && OneScopePerKey(s.ring.descriptors)
    requires |s.ring.descriptors| < c.policy.maxScopeKeys && scope !in s.ring.descriptors
    requires Vetted(c.policy, scope, true, now)
    requires forall t | t in s.ring.descriptors :: s.ring.descriptors[t].key != d.key
    ensures var after := Serve(x, c, s, Addition(scope, d, true, now));
            && after.store == s.store && AllServed(x.Short, after.ring) && OneScopePerKey(after.ring.descriptors)
            && scope in after.ring.descriptors && after.ring.descriptors[scope] == d
  {
    hide AllServed, OneScopePerKey, Vetted, Swept, Sweep;
    var swept := Sweep(s.ring, now);
    SweepIsSwept(s.ring, now);
    SweepKeepsServed(x.Short, s.ring, swept, now);
    OfferKeepsServed(x.Short, s.ring, swept, now, c.policy.maxScopeKeys, scope, d);
    OfferSame(swept, x.Short, k => x.Short(k), c.policy.maxScopeKeys, scope, d);
  }

  lemma EntersInTime(p: Policy, scope: Scope, network: string, permission: string, now: u64)
    requires Enters(p, scope, network, permission, now)
    ensures now < scope.expiresAt
  {
  }

  lemma OneKeyOneScope(descriptors: map<Scope, Descriptor>, s: Scope, t: Scope)
    requires OneScopePerKey(descriptors) && s in descriptors && t in descriptors
    requires descriptors[s].key == descriptors[t].key
    ensures s == t
  {
  }

  lemma OfferSame(swept: Ring, a: Key -> byte, b: Key -> byte, max: nat, scope: Scope, d: Descriptor)
    requires a(d.key) == b(d.key)
    ensures Offer(swept, a, max, scope, d) == Offer(swept, b, max, scope, d)
  {
  }

  /** The store's time at its last redemption. */
  function LastReading(calls: seq<Call>): u64 {
    if calls == [] then 0
    else if calls[|calls| - 1].Redemption? then calls[|calls| - 1].reading
    else LastReading(calls[..|calls| - 1])
  }

  /** The store's time does not go back, and is at most `lag` past the caller's. */
  predicate InOrder(c: Config, calls: seq<Call>) {
    calls == [] ||
    var front, last := calls[..|calls| - 1], calls[|calls| - 1];
    && InOrder(c, front)
    && (last.Redemption? ==>
          && LastReading(front) <= last.reading && last.now <= last.reading <= last.now + c.lag
          && (last.now < last.reading ==> last.reading < U64_MAX))
  }

  /** The nonce store's machine after the same calls. */
  function Machine(x: Scheme, c: Config, calls: seq<Call>): State
    requires ValidPolicy(c.policy)
  {
    if calls == [] then START
    else
      var front, last := calls[..|calls| - 1], calls[|calls| - 1];
      match last
      case Redemption(p, network, permission, now, reading) =>
        TwoSteps(x, c, AfterCalls(x, c, front).ring, Machine(x, c, front), p, network, permission, now, reading)
      case Addition(_, _, _, _) => Machine(x, c, front)
  }

  lemma {:induction false} CallsAreSteps(x: Scheme, c: Config, calls: seq<Call>)
    requires ValidPolicy(c.policy)
    ensures Machine(x, c, calls)
            == State(LastReading(calls), AfterCalls(x, c, calls).store, map[], AcceptedBy(x, c, calls))
    decreases |calls|
  {
    if calls != [] {
      var front, last := calls[..|calls| - 1], calls[|calls| - 1];
      CallsAreSteps(x, c, front);
      assert AcceptedBy(x, c, front) + [] == AcceptedBy(x, c, front);
      if last.Redemption? {
        RedeemIsTwoSteps(x, c, AfterCalls(x, c, front), Machine(x, c, front),
                         last.p, last.network, last.permission, last.now, last.reading);
      }
      hide Redeem, TwoSteps, Offer, Sweep, Vetted, NonceOf;
    }
  }

  lemma TwoStepsKeepGuarded(
    x: Scheme, c: Config, ring: Ring, m: State, p: Presentation, network: string, permission: string, now: u64,
    reading: u64)
    requires ValidPolicy(c.policy) && LongEnough(c) && c.delay > 0 && Guarded(c, m) && m.inFlight == map[]
    requires m.clock <= reading && now <= reading <= now + c.lag && (now < reading ==> reading < U64_MAX)
    ensures Guarded(c, TwoSteps(x, c, ring, m, p, network, permission, now, reading))
  {
    var swept := Sweep(ring, now);
    var present :=
      Present(0, Token(NonceOf(x, p), p.scope), network, permission, Reading(x, swept, p).Ok?, now, reading);
    EpochExactly(c.policy, now);
    hide Guarded, Sweep, Reading, Reserves, Reserve, Signed, NonceOf;
    StepKeepsGuarded(c, m, present);
    StepKeepsGuarded(c, Take(c, m, present), Settle(0, Signed(x, swept, p), reading));
  }

  lemma {:induction false} CallsKeepGuarded(x: Scheme, c: Config, calls: seq<Call>)
    requires ValidPolicy(c.policy) && LongEnough(c) && c.delay > 0 && InOrder(c, calls)
    ensures Guarded(c, Machine(x, c, calls))
    decreases |calls|
  {
    if calls != [] {
      var front, last := calls[..|calls| - 1], calls[|calls| - 1];
      CallsKeepGuarded(x, c, front);
      CallsAreSteps(x, c, front);
      if last.Redemption? {
        TwoStepsKeepGuarded(x, c, AfterCalls(x, c, front).ring, Machine(x, c, front),
                            last.p, last.network, last.permission, last.now, last.reading);
      }
      hide TwoSteps, Guarded, LongEnough;
    }
  }

  /**
   * Whatever tokens are presented and descriptors added, in any order and number: no nonce is
   * accepted twice under one scope.
   */
  lemma NothingAcceptedTwice(x: Scheme, c: Config, calls: seq<Call>)
    requires ValidPolicy(c.policy) && LongEnough(c) && c.delay > 0 && InOrder(c, calls)
    ensures NoneTwice(AcceptedBy(x, c, calls))
  {
    CallsAreSteps(x, c, calls);
    CallsKeepGuarded(x, c, calls);
    hide Machine, AcceptedBy;
  }

  /** In particular with one clock and the retention the verifier uses. */
  lemma OneClockAcceptsOnce(x: Scheme, p: Policy, calls: seq<Call>)
    requires ValidPolicy(p) && InOrder(OneClock(p), calls)
    ensures NoneTwice(AcceptedBy(x, OneClock(p), calls))
  {
    NothingAcceptedTwice(x, OneClock(p), calls);
  }

  lemma ReadingSame(x: Scheme, a: Ring, b: Ring, p: Presentation)
    requires a.descriptors == b.descriptors && forall id: byte :: Bucket(a.keys, id) == Bucket(b.keys, id)
    ensures Reading(x, a, p) == Reading(x, b, p)
    ensures forall f: Fields :: Checks(x, a, f) == Checks(x, b, f)
  {
  }

  // ----- In place -----

  class AnonymousVerifier {
    const x: Scheme
    const config: Config
    const ring: KeyRing
    const nonces: NonceStore

    ghost predicate Valid()
      reads this, ring
    {
      ValidPolicy(config.policy) && Bucketed(ring.short, ring.keys)
    }

    constructor (x: Scheme, config: Config)
      requires ValidPolicy(config.policy)
      ensures Valid() && this.x == x && this.config == config && fresh(ring) && fresh(nonces)
      ensures nonces.config == config && nonces.values == map[] && ring.View() == EMPTY
    {
      this.x, this.config := x, config;
      ring := new KeyRing(k => x.Short(k), config.policy.maxScopeKeys);
      nonces := new NonceStore(config);
    }

    /** Tries the keys of one bucket in turn. */
    method CheckAny(bucket: seq<Key>, f: Fields) returns (ok: bool)
      ensures ok <==> exists k | k in bucket :: x.verifies(k, f)
    {
      for i := 0 to |bucket|
        invariant forall k | k in bucket[..i] :: !x.verifies(k, f)
      {
        if x.verifies(bucket[i], f) {
          assert bucket[i] in bucket;
          return true;
        }
      }
      assert bucket[..|bucket|] == bucket;
      return false;
    }

    method SpendToken(f: Fields, reading: u64) returns (r: Outcome)
      requires nonces.config == config
      modifies nonces
      ensures (r, nonces.values)
              == Spend(config, old(nonces.values), f.nonce, reading, Checks(x, Ring(ring.descriptors, ring.keys), f))
    {
      hide Reserves, Reserve, Commit, Release;
      var ok := nonces.TryReserve(f.nonce, reading);
      if !ok { return ReplayOrCapacity; }
      var id := x.truncated(f.keyId);
      var checked := CheckAny(if id in ring.keys then ring.keys[id] else [], f);
      if checked {
        nonces.MarkCommitted(f.nonce);
        return Accepted;
      }
      nonces.ReleaseReserved(f.nonce);
      return VerificationFailed;
    }

    method RedeemToken(p: Presentation, network: string, permission: string, now: u64, reading: u64)
      returns (r: Outcome)
      requires Valid() && nonces.config == config
      modifies ring, nonces
      ensures Valid()
      ensures var held := Held(old(ring.View()), old(nonces.values));
              var (outcome, after) := Redeem(x, config, held, p, network, permission, now, reading);
              && r == outcome && nonces.values == after.store && ring.descriptors == after.ring.descriptors
              && forall id: byte :: Bucket(ring.keys, id) == Bucket(after.ring.keys, id)
    {
      ghost var before, values := ring.View(), nonces.values;
      var refusal := Entrance(config, p.scope, network, permission, now);
      if refusal.Some? { return refusal.value; }
      ring.Prune(now);
      SweepIsSwept(before, now);
      ghost var swept := Sweep(before, now);
      assert forall id: byte :: Bucket(ring.keys, id) == Bucket(swept.keys, id);
      hide Sweep, Swept, Spend, Entrance, Bucketed, Reading;
      ReadingSame(x, swept, Ring(ring.descriptors, ring.keys), p);
      var token := Reading(x, Ring(ring.descriptors, ring.keys), p);
      if token.Err? { return token.error; }
      r := SpendToken(token.value, reading);
    }
  }
}
