/**
 * The verifier's scope keys: a descriptor per scope, and beside it the public keys bucketed by their
 * truncated one-byte id, which different keys may share.
 */
module ScopeKeys {
  import opened Common
  import opened AnonymousAuth

  type Key = Bytes

  /** What governance signed for a scope: its public key, and who vouches for it. */
  datatype Descriptor = Descriptor(key: Key, issuer: Bytes, issuerKey: Bytes, signature: Bytes)

  /** `keys` holds, per truncated id, the keys tokens are checked against. */
  datatype Ring = Ring(descriptors: map<Scope, Descriptor>, keys: map<byte, seq<Key>>)

  function Bucket(keys: map<byte, seq<Key>>, id: byte): seq<Key> {
    if id in keys then keys[id] else []
  }

  predicate Serves(short: Key -> byte, keys: map<byte, seq<Key>>, k: Key) {
    k in Bucket(keys, short(k))
  }

  function Without(bucket: seq<Key>, gone: set<Key>): seq<Key> {
    if bucket == [] then []
    else if bucket[0] in gone then Without(bucket[1..], gone)
    else [bucket[0]] + Without(bucket[1..], gone)
  }

  lemma WithoutHolds(bucket: seq<Key>, gone: set<Key>, k: Key)
    ensures k in Without(bucket, gone) <==> k in bucket && k !in gone
  {
    if bucket != [] { WithoutHolds(bucket[1..], gone, k); }
  }

  lemma {:induction false} WithoutTwice(bucket: seq<Key>, gone: set<Key>, more: set<Key>)
    ensures Without(Without(bucket, gone), more) == Without(bucket, gone + more)
  {
    if bucket != [] {
      WithoutTwice(bucket[1..], gone, more);
      var w := Without(bucket[1..], gone);
      if bucket[0] !in gone {
        assert Without(bucket, gone) == [bucket[0]] + w && ([bucket[0]] + w)[1..] == w;
      }
    }
  }

  lemma {:induction false} WithoutNone(bucket: seq<Key>, gone: set<Key>)
    requires forall k | k in bucket :: k !in gone
    ensures Without(bucket, gone) == bucket
  {
    if bucket != [] { WithoutNone(bucket[1..], gone); }
  }

  /** Every key sits in the bucket of its own truncated id, and no bucket is empty. */
  predicate Bucketed(short: Key -> byte, keys: map<byte, seq<Key>>) {
    forall id | id in keys :: keys[id] != [] && forall k | k in keys[id] :: short(k) == id
  }

  function Running(descriptors: map<Scope, Descriptor>, now: u64): map<Scope, Descriptor> {
    map s | s in descriptors && s.expiresAt > now :: descriptors[s]
  }

  function ExpiredKeys(descriptors: map<Scope, Descriptor>, now: u64): set<Key> {
    set s | s in descriptors && s.expiresAt <= now :: descriptors[s].key
  }

  /** Every bucket without the keys gone. */
  predicate Reduced(before: map<byte, seq<Key>>, keys: map<byte, seq<Key>>, gone: set<Key>) {
    forall id: byte :: Bucket(keys, id) == Without(Bucket(before, id), gone)
  }

  /** What a sweep leaves: the running descriptors, and every bucket without the expired ones' keys. */
  predicate Swept(r: Ring, r': Ring, now: u64) {
    r'.descriptors == Running(r.descriptors, now) && Reduced(r.keys, r'.keys, ExpiredKeys(r.descriptors, now))
  }

  /** Every descriptor's key can be found for the tokens of its scope. */
  predicate AllServed(short: Key -> byte, r: Ring) {
    forall s | s in r.descriptors :: Serves(short, r.keys, r.descriptors[s].key)
  }

  /**
   * A sweep keeps serving a running scope exactly when no expired scope has the very same key; keys
   * that only share a truncated id do not disturb each other.
   */
  lemma SweepServesExactly(short: Key -> byte, r: Ring, r': Ring, now: u64, scope: Scope)
    requires AllServed(short, r) && Swept(r, r', now) && scope in r'.descriptors
    ensures Serves(short, r'.keys, r'.descriptors[scope].key) <==>
            forall s | s in r.descriptors && r.descriptors[s].key == r.descriptors[scope].key :: s.expiresAt > now
  {
    var k := r.descriptors[scope].key;
    WithoutHolds(Bucket(r.keys, short(k)), ExpiredKeys(r.descriptors, now), k);
  }

  predicate OneScopePerKey(descriptors: map<Scope, Descriptor>) {
    forall s, t | s in descriptors && t in descriptors && descriptors[s].key == descriptors[t].key :: s == t
  }

  datatype Added = Stored | Known | Conflict | Full | Refused

  /** A well-formed scope that ends with its own epoch, later than now; `genuine`: signature and key id check. */
  predicate Vetted(p: Policy, scope: Scope, genuine: bool, now: u64) {
    && ValidScope(scope)
    && scope.epoch + 1 <= U64_MAX && scope.expiresAt == (scope.epoch + 1) * p.epochSeconds
    && now < scope.expiresAt && genuine
  }

  /** The times at which tokens of a vetted scope may be redeemed are exactly its epoch, up to its expiry. */
  lemma VettedScopeIsItsEpoch(c: Config, scope: Scope, genuine: bool, added: u64, nonce: Nonce, t: u64)
    requires ValidPolicy(c.policy) && Vetted(c.policy, scope, genuine, added)
    ensures Current(c, Token(nonce, scope), t) <==> scope.epoch * c.policy.epochSeconds <= t < scope.expiresAt
  {
    var seconds := c.policy.epochSeconds;
    var q := t / seconds;
    assert t == q * seconds + t % seconds;
    EpochBounds(seconds, t);
    assert (q + 1) * seconds == q * seconds + seconds;
    if q < scope.epoch { MulMonotone(q + 1, scope.epoch, seconds); }
    if q > scope.epoch { MulMonotone(scope.epoch + 1, q, seconds); }
  }

  /** A vetted descriptor offered after the sweep. */
  function Offer(swept: Ring, short: Key -> byte, max: nat, scope: Scope, d: Descriptor): (Ring, Added) {
    if scope in swept.descriptors then
      (swept, if swept.descriptors[scope] == d then Known else Conflict)
    else if |swept.descriptors| >= max then (swept, Full)
    else
      var id := short(d.key);
      (Ring(swept.descriptors[scope := d], swept.keys[id := Bucket(swept.keys, id) + [d.key]]), Stored)
  }

  /**
   * A vetted descriptor of a scope already here is known if it is the very same and in conflict if it
   * is not; of a new scope it is stored, beside all others, unless the ring is full.
   */
  lemma OfferExactly(swept: Ring, short: Key -> byte, max: nat, scope: Scope, d: Descriptor)
    ensures var (r, added) := Offer(swept, short, max, scope, d);
            && (added == Known <==> scope in swept.descriptors && swept.descriptors[scope] == d)
            && (added == Conflict <==> scope in swept.descriptors && swept.descriptors[scope] != d)
            && (added == Full <==> scope !in swept.descriptors && |swept.descriptors| >= max)
            && (added == Stored <==> scope !in swept.descriptors && |swept.descriptors| < max)
            && (added != Stored ==> r == swept)
            && (added == Stored ==> r.descriptors == swept.descriptors[scope := d] && Serves(short, r.keys, d.key))
  {
    var id := short(d.key);
    var bucket := Bucket(swept.keys, id) + [d.key];
    assert bucket[|bucket| - 1] == d.key;
  }

  /**
   * A descriptor is vetted exactly when its scope is of version 1, names a network and a permission of at
   * most 128 each, and ends with its epoch, later than now, and its signature and key id check.
   */
  lemma VettedExactly(p: Policy, scope: Scope, genuine: bool, now: u64)
    ensures Vetted(p, scope, genuine, now) <==>
            && scope.version == 1 && 1 <= |scope.networkId| <= 128 && 1 <= |scope.permission| <= 128
            && scope.epoch < U64_MAX && scope.expiresAt == (scope.epoch + 1) * p.epochSeconds
            && now < scope.expiresAt && genuine
  {
  }

  /**
   * Sweeping and offering a descriptor whose key no other scope holds keeps every key served, the
   * keys in their buckets, and the number of descriptors within the bound.
   */
  lemma OfferKeepsServed(short: Key -> byte, r: Ring, swept: Ring, now: u64, max: nat, scope: Scope, d: Descriptor)
    requires AllServed(short, r) && OneScopePerKey(r.descriptors) && |r.descriptors| <= max && Swept(r, swept, now)
    requires forall s | s in r.descriptors && r.descriptors[s].key == d.key :: s == scope
    ensures var r' := Offer(swept, short, max, scope, d).0;
            AllServed(short, r') && OneScopePerKey(r'.descriptors) && |r'.descriptors| <= max
  {
    hide Swept, AllServed, OneScopePerKey, Bucket;
    SweepKeepsServed(short, r, swept, now);
    if scope !in swept.descriptors && |swept.descriptors| < max {
      StoreKeepsServed(short, swept, scope, d);
      OneMore(swept.descriptors, scope, d);
    }
  }

  lemma OneMore(descriptors: map<Scope, Descriptor>, scope: Scope, d: Descriptor)
    requires scope !in descriptors
    ensures |descriptors[scope := d]| == |descriptors| + 1
  {
    var more := descriptors[scope := d];
    assert more.Keys == descriptors.Keys + {scope};
    assert |more| == |more.Keys| && |descriptors| == |descriptors.Keys|;
  }

  lemma SweepKeepsServed(short: Key -> byte, r: Ring, swept: Ring, now: u64)
    requires AllServed(short, r) && OneScopePerKey(r.descriptors) && Swept(r, swept, now)
    ensures AllServed(short, swept) && OneScopePerKey(swept.descriptors)
    ensures |swept.descriptors| <= |r.descriptors| && swept.descriptors == Running(r.descriptors, now)
  {
    hide Serves, Without;
    forall s | s in swept.descriptors ensures Serves(short, swept.keys, swept.descriptors[s].key) {
      SweepServesExactly(short, r, swept, now, s);
    }
    SubsetSize(swept.descriptors.Keys, r.descriptors.Keys);
    assert |swept.descriptors| == |swept.descriptors.Keys| && |r.descriptors| == |r.descriptors.Keys|;
  }

  lemma StoreKeepsServed(short: Key -> byte, r: Ring, scope: Scope, d: Descriptor)
    requires AllServed(short, r) && OneScopePerKey(r.descriptors) && scope !in r.descriptors
    requires forall s | s in r.descriptors :: r.descriptors[s].key != d.key
    ensures var id := short(d.key);
            AllServed(short, Ring(r.descriptors[scope := d], r.keys[id := Bucket(r.keys, id) + [d.key]]))
    ensures OneScopePerKey(r.descriptors[scope := d])
  {
    var id := short(d.key);
    var keys := r.keys[id := Bucket(r.keys, id) + [d.key]];
    forall k | Serves(short, r.keys, k) || k == d.key ensures Serves(short, keys, k) {
    }
  }

  const EMPTY := Ring(map[], map[])

  /**
   * Two scopes under one key, added one after the other while both run: when the first expires, the
   * sweep takes the key of the second, which is then no longer served.
   */
  lemma SharedKeyIsLost(
    short: Key -> byte, max: nat, s: Scope, a: Descriptor, t: Scope, b: Descriptor, at: u64, now: u64)
    requires max >= 2 && a.key == b.key && at < s.expiresAt <= now < t.expiresAt
    ensures var first := Offer(EMPTY, short, max, s, a).0;
            var both := Offer(first, short, max, t, b).0;
            var left := Ring(map[t := b], map[]);
            && Swept(EMPTY, EMPTY, at) && Swept(first, first, at) && AllServed(short, both)
            && Swept(both, left, now) && !AllServed(short, left)
  {
    OfferedBoth(short, max, s, a, t, b);
    PairLosesKey(short, s, a, t, b, now);
    NothingExpires(EMPTY, at);
    NothingExpires(Ring(map[s := a], map[short(a.key) := [a.key]]), at);
    hide Offer, Swept, AllServed;
  }

  lemma OfferedBoth(short: Key -> byte, max: nat, s: Scope, a: Descriptor, t: Scope, b: Descriptor)
    requires max >= 2 && a.key == b.key && s != t
    ensures var first := Offer(EMPTY, short, max, s, a).0;
            && first == Ring(map[s := a], map[short(a.key) := [a.key]])
            && Offer(first, short, max, t, b).0 == Ring(map[s := a, t := b], map[short(a.key) := [a.key, a.key]])
  {
    assert [] + [a.key] == [a.key] && [a.key] + [a.key] == [a.key, a.key];
    var first := Ring(map[s := a], map[short(a.key) := [a.key]]);
    assert Offer(EMPTY, short, max, s, a).0 == first;
    assert first.descriptors[t := b] == map[s := a, t := b];
  }

  lemma PairLosesKey(short: Key -> byte, s: Scope, a: Descriptor, t: Scope, b: Descriptor, now: u64)
    requires a.key == b.key && s.expiresAt <= now < t.expiresAt
    ensures var both := Ring(map[s := a, t := b], map[short(a.key) := [a.key, a.key]]);
            var left := Ring(map[t := b], map[]);
            AllServed(short, both) && Swept(both, left, now) && !AllServed(short, left)
  {
    var both, left := Ring(map[s := a, t := b], map[short(a.key) := [a.key, a.key]]), Ring(map[t := b], map[]);
    var one: seq<Key>, two: seq<Key> := [a.key], [a.key, a.key];
    var gone := ExpiredKeys(both.descriptors, now);
    assert a.key in two;
    assert left.descriptors == Running(both.descriptors, now);
    assert s in both.descriptors && a.key in gone;
    assert Without(two, gone) == Without(one, gone) == [] by { assert two[1..] == one && |one[1..]| == 0; }
    assert t in left.descriptors && !Serves(short, left.keys, left.descriptors[t].key);
  }

  lemma NothingExpires(r: Ring, at: u64)
    requires forall s | s in r.descriptors :: at < s.expiresAt
    ensures Swept(r, r, at)
  {
    assert ExpiredKeys(r.descriptors, at) == {};
    NothingGone(r.keys);
  }

  /** A sweep under way: `expired` is still to go, and `gone` are the keys of those that went. */
  predicate Sweeping(
    before: map<Scope, Descriptor>, descriptors: map<Scope, Descriptor>, expired: map<Scope, Descriptor>,
    gone: set<Key>, now: u64)
  {
    && expired == Expired(descriptors, now)
    && descriptors.Keys <= before.Keys && (forall s | s in descriptors :: descriptors[s] == before[s])
    && (forall s | s in before && s !in descriptors :: s.expiresAt <= now)
    && gone == (set s | s in before && s !in descriptors :: before[s].key)
  }

  function Expired(descriptors: map<Scope, Descriptor>, now: u64): map<Scope, Descriptor> {
    map s | s in descriptors && s.expiresAt <= now :: descriptors[s]
  }

  lemma SweepStarts(descriptors: map<Scope, Descriptor>, now: u64)
    ensures Sweeping(descriptors, descriptors, Expired(descriptors, now), {}, now)
  {
  }

  lemma SweepAdvances(
    before: map<Scope, Descriptor>, descriptors: map<Scope, Descriptor>, expired: map<Scope, Descriptor>,
    gone: set<Key>, now: u64, scope: Scope)
    requires Sweeping(before, descriptors, expired, gone, now) && scope in expired
    ensures Sweeping(before, descriptors - {scope}, expired - {scope}, gone + {expired[scope].key}, now)
  {
    assert expired - {scope} == Expired(descriptors - {scope}, now);
  }

  lemma SweepEnds(
    before: map<Scope, Descriptor>, descriptors: map<Scope, Descriptor>, expired: map<Scope, Descriptor>,
    gone: set<Key>, now: u64)
    requires Sweeping(before, descriptors, expired, gone, now) && expired.Keys == {}
    ensures descriptors == Running(before, now) && gone == ExpiredKeys(before, now)
  {
    assert forall s | s in descriptors :: s.expiresAt > now by {
      assert forall s | s in descriptors && s.expiresAt <= now :: s in expired.Keys;
    }
  }

  lemma NothingGone(keys: map<byte, seq<Key>>)
    ensures Reduced(keys, keys, {})
  {
    forall id: byte ensures Bucket(keys, id) == Without(Bucket(keys, id), {}) {
      WithoutNone(Bucket(keys, id), {});
    }
  }

  /** Removing one key from its own bucket removes it from all of them. */
  lemma RemovedOne(
    short: Key -> byte, before: map<byte, seq<Key>>, was: map<byte, seq<Key>>, keys: map<byte, seq<Key>>,
    gone: set<Key>, key: Key)
    requires Bucketed(short, was) && Reduced(before, was, gone)
    requires Bucket(keys, short(key)) == Without(Bucket(was, short(key)), {key})
    requires forall id: byte | id != short(key) :: Bucket(keys, id) == Bucket(was, id)
    requires keys.Keys <= was.Keys && (short(key) in keys ==> keys[short(key)] != [])
    ensures Bucketed(short, keys) && Reduced(before, keys, gone + {key})
  {
    forall id: byte ensures Bucket(keys, id) == Without(Bucket(before, id), gone + {key}) {
      assert Bucket(was, id) == Without(Bucket(before, id), gone);
      WithoutTwice(Bucket(before, id), gone, {key});
      if id != short(key) { WithoutNone(Bucket(was, id), {key}); }
    }
    assert forall id | id in keys :: keys[id] == Bucket(keys, id) && was[id] == Bucket(was, id);
    forall id, k | id in keys && k in keys[id] ensures short(k) == id {
      if id == short(key) { WithoutHolds(Bucket(was, id), {key}, k); }
    }
  }

  /** The verifier's descriptors and keys in place. */
  class KeyRing {
    var descriptors: map<Scope, Descriptor>
    var keys: map<byte, seq<Key>>
    const short: Key -> byte
    const max: nat

    ghost function View(): Ring
      reads this
    {
      Ring(descriptors, keys)
    }

    constructor (short: Key -> byte, max: nat)
      ensures this.short == short && this.max == max && View() == Ring(map[], map[])
    {
      this.short, this.max := short, max;
      descriptors, keys := map[], map[];
    }

    /** Drops every copy of one key from one bucket, and the bucket when it is left empty. */
    method RemoveExact(id: byte, key: Key)
      modifies this`keys
      ensures Bucket(keys, id) == Without(Bucket(old(keys), id), {key})
      ensures forall other: byte | other != id :: Bucket(keys, other) == Bucket(old(keys), other)
      ensures keys.Keys <= old(keys).Keys && (id in keys ==> keys[id] != [])
    {
      if id !in keys { return; }
      var bucket, left := keys[id], [];
      for i := 0 to |bucket|
        invariant left + Without(bucket[i..], {key}) == Without(bucket, {key})
      {
        assert bucket[i..][1..] == bucket[i + 1..];
        if bucket[i] != key { left := left + [bucket[i]]; }
      }
      assert bucket[|bucket|..] == [];
      keys := if left == [] then keys - {id} else keys[id := left];
    }

    /** Removes the expired descriptors one by one, each with its own key. */
    method Prune(now: u64)
      requires Bucketed(short, keys)
      modifies this
      ensures Bucketed(short, keys) && Swept(old(View()), View(), now)
    {
      ghost var r := View();
      hide Bucketed, Reduced, Sweeping, Without;
      var expired := Expired(descriptors, now);
      ghost var gone: set<Key> := {};
      NothingGone(keys);
      SweepStarts(descriptors, now);
      while expired.Keys != {}
        invariant Bucketed(short, keys) && Reduced(r.keys, keys, gone)
        invariant Sweeping(r.descriptors, descriptors, expired, gone, now)
        decreases |expired.Keys|
      {
        var scope :| scope in expired.Keys;
        var key := expired[scope].key;
        SweepAdvances(r.descriptors, descriptors, expired, gone, now, scope);
        descriptors := descriptors - {scope};
        SweepOne(key, gone, r.keys);
        expired := expired - {scope};
        gone := gone + {key};
      }
      SweepEnds(r.descriptors, descriptors, expired, gone, now);
    }

    method SweepOne(key: Key, ghost gone: set<Key>, ghost before: map<byte, seq<Key>>)
      requires Bucketed(short, keys) && Reduced(before, keys, gone)
      modifies this`keys
      ensures Bucketed(short, keys) && Reduced(before, keys, gone + {key})
    {
      ghost var was := keys;
      RemoveExact(short(key), key);
      RemovedOne(short, before, was, keys, gone, key);
    }

    /** Adds a descriptor; one that fails its scope, expiry, signature or key-id check changes nothing. */
    method AddDescriptor(p: Policy, scope: Scope, d: Descriptor, genuine: bool, now: u64) returns (r: Added)
      requires Bucketed(short, keys)
      modifies this
      ensures Bucketed(short, keys)
      ensures !Vetted(p, scope, genuine, now) ==> r == Refused && View() == old(View())
      ensures Vetted(p, scope, genuine, now) ==>
                exists swept :: Swept(old(View()), swept, now) && (View(), r) == Offer(swept, short, max, scope, d)
    {
      if !Vetted(p, scope, genuine, now) { return Refused; }
      Prune(now);
      ghost var swept := View();
      if scope in descriptors { return if descriptors[scope] == d then Known else Conflict; }
      if |descriptors| >= max { return Full; }
      descriptors := descriptors[scope := d];
      var id := short(d.key);
      keys := keys[id := (if id in keys then keys[id] else []) + [d.key]];
      r := Stored;
      assert (View(), r) == Offer(swept, short, max, scope, d);
    }
  }
}
