/**
 * Circuit setup: the two fixed-layout setup messages, the key-schedule transcript, and the
 * two-message key agreement between an initiator and a relay.
 */
module OnionSetup {
  import opened Common
  import BE = BigEndian

  const PROTOCOL_VERSION: u16 := 1
  const MAX_HOPS: nat := 3
  const SETUP_REQUEST_SIZE: nat := 128
  const SETUP_RESPONSE_SIZE: nat := 160
  const SETUP_FIELDS_SIZE: nat := 104
  const RESPONSE_FIELDS_SIZE: nat := 152

  const SETUP_MAGIC: Bytes := [0x50, 0x4C, 0x53, 0x31]
  const RESPONSE_MAGIC: Bytes := [0x50, 0x4C, 0x52, 0x31]

  type Id16 = s: Bytes | |s| == 16 witness seq(16, _ => 0)
  type Key32 = s: Bytes | |s| == 32 witness seq(32, _ => 0)

  datatype OnionError =
    | UnsupportedVersion | InvalidEncoding | Expired | TranscriptMismatch | KeyAgreementFailed
    | AuthenticationFailed | WrongScope | Replay | OutOfWindow | HopLimit | PayloadTooLarge
    | FragmentCapacity

  datatype SetupContext = SetupContext(circuitId: Id16, hop: byte, epoch: u64, expiresAt: u64)

  datatype SetupRequest = SetupRequest(context: SetupContext, initiator: Key32, relay: Key32)

  datatype SetupResponse = SetupResponse(
    context: SetupContext, initiator: Key32, responder: Key32, relay: Key32, confirmation: Id16)

  function Zeros(n: nat): (s: Bytes)
    ensures |s| == n
  {
    seq(n, _ => 0)
  }

  predicate AllZero(s: Bytes) {
    forall i | 0 <= i < |s| :: s[i] == 0
  }

  // ----- Layouts -----

  /** The first 40 bytes of both setup messages. */
  function Prologue(magic: Bytes, context: SetupContext): (s: Bytes)
    requires |magic| == 4
    ensures |s| == 40
  {
    magic + BE.U16(PROTOCOL_VERSION) + [context.hop, 0] + context.circuitId
    + BE.U64(context.epoch) + BE.U64(context.expiresAt)
  }

  function EncodeRequest(r: SetupRequest): (s: Bytes)
    ensures |s| == SETUP_REQUEST_SIZE
  {
    Prologue(SETUP_MAGIC, r.context) + r.initiator + r.relay
    + Zeros(SETUP_REQUEST_SIZE - SETUP_FIELDS_SIZE)
  }

  function EncodeResponse(r: SetupResponse): (s: Bytes)
    ensures |s| == SETUP_RESPONSE_SIZE
  {
    Prologue(RESPONSE_MAGIC, r.context) + r.initiator + r.responder + r.relay + r.confirmation
    + Zeros(SETUP_RESPONSE_SIZE - RESPONSE_FIELDS_SIZE)
  }

  function ReadContext(s: Bytes): SetupContext
    requires |s| >= 40
  {
    SetupContext(s[8..24], s[6], BE.ReadU64(s[24..32]), BE.ReadU64(s[32..40]))
  }

  function ParseRequest(s: Bytes): Result<SetupRequest, OnionError> {
    if |s| != SETUP_REQUEST_SIZE then Err(InvalidEncoding)
    else if s[..4] != SETUP_MAGIC || s[7] != 0 || !AllZero(s[SETUP_FIELDS_SIZE..]) then Err(InvalidEncoding)
    else if BE.ReadU16(s[4..6]) != PROTOCOL_VERSION then Err(UnsupportedVersion)
    else Ok(SetupRequest(ReadContext(s), s[40..72], s[72..104]))
  }

  function ParseResponse(s: Bytes): Result<SetupResponse, OnionError> {
    if |s| != SETUP_RESPONSE_SIZE then Err(InvalidEncoding)
    else if s[..4] != RESPONSE_MAGIC || s[7] != 0 || !AllZero(s[RESPONSE_FIELDS_SIZE..]) then Err(InvalidEncoding)
    else if BE.ReadU16(s[4..6]) != PROTOCOL_VERSION then Err(UnsupportedVersion)
    else Ok(SetupResponse(ReadContext(s), s[40..72], s[72..104], s[104..136], s[136..152]))
  }

  // ----- The encoders, filling zeroed buffers in place -----

  predicate ZeroFrom(buffer: array<byte>, at: nat)
    reads buffer
  {
    forall i | at <= i < buffer.Length :: buffer[i] == 0
  }

  /** Copies a slice at `at`, where everything from `at` on is still zero. */
  method CopySlice(buffer: array<byte>, at: nat, source: Bytes)
    requires at + |source| <= buffer.Length && ZeroFrom(buffer, at)
    modifies buffer
    ensures buffer[..at + |source|] == old(buffer[..at]) + source
    ensures ZeroFrom(buffer, at + |source|)
  {
    forall i | 0 <= i < |source| {
      buffer[at + i] := source[i];
    }
  }

  method WriteFields(
    buffer: array<byte>, magic: Bytes, version: Bytes, hop: byte, circuit: Bytes, epoch: Bytes, expiry: Bytes)
    requires |magic| == 4 && |version| == 2 && |circuit| == 16 && |epoch| == |expiry| == 8
    requires buffer.Length >= 40 && ZeroFrom(buffer, 0)
    modifies buffer
    ensures buffer[..40] == magic + version + [hop, 0] + circuit + epoch + expiry
    ensures ZeroFrom(buffer, 40)
  {
    CopySlice(buffer, 0, magic);
    CopySlice(buffer, 4, version);
    CopySlice(buffer, 6, [hop]);
    assert buffer[..8] == buffer[..7] + [0];
    assert buffer[..8] == magic + version + [hop, 0];
    CopySlice(buffer, 8, circuit);
    CopySlice(buffer, 24, epoch);
    CopySlice(buffer, 32, expiry);
  }

  method WritePrologue(buffer: array<byte>, magic: Bytes, context: SetupContext)
    requires |magic| == 4 && buffer.Length >= 40 && ZeroFrom(buffer, 0)
    modifies buffer
    ensures buffer[..40] == Prologue(magic, context)
    ensures ZeroFrom(buffer, 40)
  {
    WriteFields(buffer, magic, BE.U16(PROTOCOL_VERSION), context.hop, context.circuitId,
                BE.U64(context.epoch), BE.U64(context.expiresAt));
  }

  method WriteRequest(r: SetupRequest) returns (buffer: array<byte>)
    ensures fresh(buffer) && buffer[..] == EncodeRequest(r)
  {
    buffer := new byte[SETUP_REQUEST_SIZE](_ => 0);
    WritePrologue(buffer, SETUP_MAGIC, r.context);
    CopySlice(buffer, 40, r.initiator);
    CopySlice(buffer, 72, r.relay);
    ZeroTail(buffer[104..]);
    assert buffer[..] == buffer[..104] + buffer[104..];
  }

  method WriteResponse(r: SetupResponse) returns (buffer: array<byte>)
    ensures fresh(buffer) && buffer[..] == EncodeResponse(r)
  {
    buffer := new byte[SETUP_RESPONSE_SIZE](_ => 0);
    WritePrologue(buffer, RESPONSE_MAGIC, r.context);
    CopySlice(buffer, 40, r.initiator);
    CopySlice(buffer, 72, r.responder);
    CopySlice(buffer, 104, r.relay);
    CopySlice(buffer, 136, r.confirmation);
    ZeroTail(buffer[152..]);
    assert buffer[..] == buffer[..152] + buffer[152..];
  }

  // ----- Canonical encodings -----

  lemma PrologueSlices(
    magic: Bytes, version: Bytes, hop: byte, circuit: Bytes, epoch: Bytes, expiry: Bytes, rest: Bytes)
    requires |magic| == 4 && |version| == 2 && |circuit| == 16 && |epoch| == |expiry| == 8
    ensures var s := magic + version + [hop, 0] + circuit + epoch + expiry + rest;
            s[..4] == magic && s[4..6] == version && s[6] == hop && s[7] == 0 && s[8..24] == circuit
            && s[24..32] == epoch && s[32..40] == expiry
  {
  }

  lemma PrologueFields(magic: Bytes, context: SetupContext, rest: Bytes)
    requires |magic| == 4
    ensures var s := Prologue(magic, context) + rest;
            s[..4] == magic && s[7] == 0 && BE.ReadU16(s[4..6]) == PROTOCOL_VERSION
            && ReadContext(s) == context
  {
    PrologueSlices(magic, BE.U16(PROTOCOL_VERSION), context.hop, context.circuitId,
                   BE.U64(context.epoch), BE.U64(context.expiresAt), rest);
    BE.U16RoundTrip(PROTOCOL_VERSION);
    BE.U64RoundTrip(context.epoch);
    BE.U64RoundTrip(context.expiresAt);
  }

  lemma PrologueOf(s: Bytes, magic: Bytes)
    requires |s| >= 40 && |magic| == 4 && s[..4] == magic && s[7] == 0
    requires BE.ReadU16(s[4..6]) == PROTOCOL_VERSION
    ensures Prologue(magic, ReadContext(s)) == s[..40]
  {
    BE.U16Exact(s[4..6]);
    BE.U64Exact(s[24..32]);
    BE.U64Exact(s[32..40]);
    PrologueRejoins(s);
  }

  lemma PrologueRejoins(s: Bytes)
    requires |s| >= 40
    ensures s[..40] == s[..4] + s[4..6] + [s[6], s[7]] + s[8..24] + s[24..32] + s[32..40]
  {
  }

  lemma ZeroTail(s: Bytes)
    requires AllZero(s)
    ensures s == Zeros(|s|)
  {
  }

  lemma RequestSlices(prologue: Bytes, initiator: Bytes, relay: Bytes, zeros: Bytes)
    requires |prologue| == 40 && |initiator| == |relay| == 32
    ensures var s := prologue + initiator + relay + zeros;
            s[40..72] == initiator && s[72..104] == relay && s[104..] == zeros
            && s == prologue + (initiator + relay + zeros)
  {
  }

  lemma RequestParsesBack(r: SetupRequest)
    ensures ParseRequest(EncodeRequest(r)) == Ok(r)
  {
    var zeros := Zeros(SETUP_REQUEST_SIZE - SETUP_FIELDS_SIZE);
    RequestSlices(Prologue(SETUP_MAGIC, r.context), r.initiator, r.relay, zeros);
    PrologueFields(SETUP_MAGIC, r.context, r.initiator + r.relay + zeros);
  }

  lemma ParsedRequestEncodesBack(s: Bytes)
    requires ParseRequest(s).Ok?
    ensures EncodeRequest(ParseRequest(s).value) == s
  {
    PrologueOf(s, SETUP_MAGIC);
    ZeroTail(s[SETUP_FIELDS_SIZE..]);
    RequestRejoins(s);
  }

  lemma RequestRejoins(s: Bytes)
    requires |s| == SETUP_REQUEST_SIZE
    ensures s == s[..40] + s[40..72] + s[72..104] + s[SETUP_FIELDS_SIZE..]
  {
  }

  lemma ResponseSlices(prologue: Bytes, initiator: Bytes, responder: Bytes, relay: Bytes, tag: Bytes, zeros: Bytes)
    requires |prologue| == 40 && |initiator| == |responder| == |relay| == 32 && |tag| == 16
    ensures var s := prologue + initiator + responder + relay + tag + zeros;
            s[40..72] == initiator && s[72..104] == responder && s[104..136] == relay && s[136..152] == tag
            && s[152..] == zeros && s == prologue + (initiator + responder + relay + tag + zeros)
  {
  }

  lemma ResponseParsesBack(r: SetupResponse)
    ensures ParseResponse(EncodeResponse(r)) == Ok(r)
  {
    var zeros := Zeros(SETUP_RESPONSE_SIZE - RESPONSE_FIELDS_SIZE);
    ResponseSlices(Prologue(RESPONSE_MAGIC, r.context), r.initiator, r.responder, r.relay, r.confirmation, zeros);
    PrologueFields(RESPONSE_MAGIC, r.context, r.initiator + r.responder + r.relay + r.confirmation + zeros);
  }

  lemma ParsedResponseEncodesBack(s: Bytes)
    requires ParseResponse(s).Ok?
    ensures EncodeResponse(ParseResponse(s).value) == s
  {
    PrologueOf(s, RESPONSE_MAGIC);
    ZeroTail(s[RESPONSE_FIELDS_SIZE..]);
    ResponseRejoins(s);
  }

  lemma ResponseRejoins(s: Bytes)
    requires |s| == SETUP_RESPONSE_SIZE
    ensures s == s[..40] + s[40..72] + s[72..104] + s[104..136] + s[136..152] + s[RESPONSE_FIELDS_SIZE..]
  {
  }

  // ----- Transcript -----

  const TRANSCRIPT_LABEL: string := "peerless/onion/setup/v1"

  function Ascii(s: string): (b: Bytes)
    ensures |b| == |s|
  {
    seq(|s|, i requires 0 <= i < |s| => s[i] as int % 256)
  }

  function Transcript(context: SetupContext, initiator: Key32, responder: Key32, relay: Key32): (s: Bytes)
    ensures |s| == |TRANSCRIPT_LABEL| + 131
  {
    Ascii(TRANSCRIPT_LABEL) + BE.U16(PROTOCOL_VERSION) + context.circuitId + [context.hop]
    + BE.U64(context.epoch) + BE.U64(context.expiresAt) + initiator + responder + relay
  }

  lemma TranscriptSlices(version: Bytes, circuit: Bytes, hop: byte, epoch: Bytes, expiry: Bytes,
                         initiator: Bytes, responder: Bytes, relay: Bytes)
    requires |version| == 2 && |circuit| == 16 && |epoch| == |expiry| == 8
    requires |initiator| == |responder| == |relay| == 32
    ensures var s := version + circuit + [hop] + epoch + expiry + initiator + responder + relay;
            && s[2..18] == circuit && s[18] == hop && s[19..27] == epoch && s[27..35] == expiry
            && s[35..67] == initiator && s[67..99] == responder && s[99..131] == relay
  {
  }

  lemma DropLabel(title: Bytes, version: Bytes, circuit: Bytes, hop: byte, epoch: Bytes, expiry: Bytes,
                  initiator: Bytes, responder: Bytes, relay: Bytes)
    ensures (title + version + circuit + [hop] + epoch + expiry + initiator + responder + relay)[|title|..]
         == version + circuit + [hop] + epoch + expiry + initiator + responder + relay
  {
  }

  lemma TranscriptFields(context: SetupContext, initiator: Key32, responder: Key32, relay: Key32)
    ensures var s := Transcript(context, initiator, responder, relay)[|TRANSCRIPT_LABEL|..];
            && s[2..18] == context.circuitId && s[18] == context.hop
            && s[19..27] == BE.U64(context.epoch) && s[27..35] == BE.U64(context.expiresAt)
            && s[35..67] == initiator && s[67..99] == responder && s[99..131] == relay
  {
    var version, epoch, expiry := BE.U16(PROTOCOL_VERSION), BE.U64(context.epoch), BE.U64(context.expiresAt);
    DropLabel(Ascii(TRANSCRIPT_LABEL), version, context.circuitId, context.hop, epoch, expiry,
              initiator, responder, relay);
    TranscriptSlices(version, context.circuitId, context.hop, epoch, expiry, initiator, responder, relay);
  }

  /** No two setups share a transcript. */
  lemma TranscriptIsInjective(c1: SetupContext, i1: Key32, p1: Key32, r1: Key32,
                              c2: SetupContext, i2: Key32, p2: Key32, r2: Key32)
    ensures Transcript(c1, i1, p1, r1) == Transcript(c2, i2, p2, r2) <==>
            c1 == c2 && i1 == i2 && p1 == p2 && r1 == r2
  {
    if Transcript(c1, i1, p1, r1) == Transcript(c2, i2, p2, r2) {
      TranscriptFields(c1, i1, p1, r1);
      TranscriptFields(c2, i2, p2, r2);
      BE.U64RoundTrip(c1.epoch);
      BE.U64RoundTrip(c1.expiresAt);
      BE.U64RoundTrip(c2.epoch);
      BE.U64RoundTrip(c2.expiresAt);
    }
  }

  // ----- Key agreement -----

  type Prefix4 = s: Bytes | |s| == 4 witness [0, 0, 0, 0]

  datatype HopKeys = HopKeys(
    circuitId: Id16, hop: byte, epoch: u64, expiresAt: u64,
    forwardKey: Key32, reverseKey: Key32, forwardPrefix: Prefix4, reversePrefix: Prefix4)

  /**
   * The cryptographic libraries, as abstract functions: X25519 (section 6.1 of RFC 7748), HKDF
   * over the transcript digest (section 2 of RFC 5869) and the AEAD (section 2.8 of RFC 8439).
   */
  datatype Crypto = Crypto(
    public: Key32 -> Key32,
    agree: (Key32, Key32) -> Key32,
    contributory: Key32 -> bool,
    expand: (Bytes, Bytes) -> Bytes,
    seal: (Key32, Bytes, Bytes, Bytes) -> (Bytes, Bytes),
    open: (Key32, Bytes, Bytes, Bytes, Bytes) -> Option<Bytes>)
  {
    /** Agreement is symmetric, HKDF fills 104 bytes, and opening undoes sealing. */
    ghost predicate Lawful() {
      && (forall a: Key32, b: Key32 :: agree(a, public(b)) == agree(b, public(a)))
      && (forall transcript: Bytes, shared: Bytes :: |expand(transcript, shared)| == 104)
      && (forall key: Key32, nonce: Bytes, aad: Bytes, plain: Bytes ::
            |seal(key, nonce, aad, plain).0| == |plain| && |seal(key, nonce, aad, plain).1| == 16
            && open(key, nonce, aad, seal(key, nonce, aad, plain).0, seal(key, nonce, aad, plain).1) == Some(plain))
    }
  }

  function Validate(context: SetupContext, now: u64): Option<OnionError> {
    if context.expiresAt <= now then Some(Expired)
    else if context.hop >= MAX_HOPS then Some(HopLimit)
    else None
  }

  function DeriveKeys(c: Crypto, shared: Bytes, transcript: Bytes, context: SetupContext): (HopKeys, Key32)
    requires |c.expand(transcript, shared)| == 104
  {
    var output := c.expand(transcript, shared);
    (HopKeys(context.circuitId, context.hop, context.epoch, context.expiresAt,
             output[..32], output[32..64], output[64..68], output[68..72]),
     output[72..104])
  }

  function ConfirmationTag(c: Crypto, key: Key32, transcript: Bytes): Bytes {
    c.seal(key, Zeros(12), transcript, []).1
  }

  datatype PendingSetup = PendingSetup(context: SetupContext, secret: Key32, initiator: Key32, relay: Key32)

  function Start(c: Crypto, context: SetupContext, secret: Key32, relay: Key32, now: u64)
    : Result<(Bytes, PendingSetup), OnionError>
  {
    match Validate(context, now)
    case Some(error) => Err(error)
    case None =>
      var initiator := c.public(secret);
      Ok((EncodeRequest(SetupRequest(context, initiator, relay)), PendingSetup(context, secret, initiator, relay)))
  }

  function Accept(c: Crypto, request: Bytes, relaySecret: Key32, ephemeral: Key32, now: u64)
    : Result<(Bytes, HopKeys), OnionError>
    requires forall t: Bytes, s: Bytes :: |c.expand(t, s)| == 104
    requires forall key: Key32, nonce: Bytes, aad: Bytes, plain: Bytes :: |c.seal(key, nonce, aad, plain).1| == 16
  {
    var parsed := ParseRequest(request);
    if parsed.Err? then Err(parsed.error) else
    var r := parsed.value;
    match Validate(r.context, now)
    case Some(error) => Err(error)
    case None =>
      if r.relay != c.public(relaySecret) then Err(WrongScope) else
      var responder := c.public(ephemeral);
      var fixedShare := c.agree(relaySecret, r.initiator);
      var freshShare := c.agree(ephemeral, r.initiator);
      if !c.contributory(fixedShare) || !c.contributory(freshShare) then Err(KeyAgreementFailed) else
      var transcript := Transcript(r.context, r.initiator, responder, r.relay);
      var (keys, confirmationKey) := DeriveKeys(c, fixedShare + freshShare, transcript, r.context);
      var tag := ConfirmationTag(c, confirmationKey, transcript);
      Ok((EncodeResponse(SetupResponse(r.context, r.initiator, responder, r.relay, tag)), keys))
  }

  function Finish(c: Crypto, pending: PendingSetup, response: Bytes, now: u64): Result<HopKeys, OnionError>
    requires forall t: Bytes, s: Bytes :: |c.expand(t, s)| == 104
  {
    var parsed := ParseResponse(response);
    if parsed.Err? then Err(parsed.error) else
    var r := parsed.value;
    match Validate(pending.context, now)
    case Some(error) => Err(error)
    case None =>
      if r.context != pending.context || r.initiator != pending.initiator || r.relay != pending.relay
      then Err(TranscriptMismatch) else
      var fixedShare := c.agree(pending.secret, r.relay);
      var freshShare := c.agree(pending.secret, r.responder);
      if !c.contributory(fixedShare) || !c.contributory(freshShare) then Err(KeyAgreementFailed) else
      var transcript := Transcript(pending.context, pending.initiator, r.responder, r.relay);
      var (keys, confirmationKey) := DeriveKeys(c, fixedShare + freshShare, transcript, pending.context);
      if ConfirmationTag(c, confirmationKey, transcript) != r.confirmation then Err(TranscriptMismatch)
      else Ok(keys)
  }

  /** The four traffic secrets and the confirmation key are the derived bytes, in order, none used twice. */
  lemma SecretsAreApart(c: Crypto, shared: Bytes, transcript: Bytes, context: SetupContext)
    requires |c.expand(transcript, shared)| == 104
    ensures var (keys, confirmationKey) := DeriveKeys(c, shared, transcript, context);
            && keys.forwardKey + keys.reverseKey + keys.forwardPrefix + keys.reversePrefix + confirmationKey
               == c.expand(transcript, shared)
            && keys.circuitId == context.circuitId && keys.hop == context.hop
            && keys.epoch == context.epoch && keys.expiresAt == context.expiresAt
  {
  }

  /** A setup starts exactly within its lifetime and for one of three hops, and asks for that relay. */
  lemma StartsExactly(c: Crypto, context: SetupContext, secret: Key32, relay: Key32, now: u64)
    ensures var start := Start(c, context, secret, relay, now);
            && (start.Ok? <==> now < context.expiresAt && context.hop < 3)
            && (start.Ok? ==> ParseRequest(start.value.0) == Ok(SetupRequest(context, c.public(secret), relay)))
            && (start.Err? ==> start.error == if context.expiresAt <= now then Expired else HopLimit)
  {
    RequestParsesBack(SetupRequest(context, c.public(secret), relay));
  }

  /**
   * A relay accepts exactly a well-formed request within its lifetime, for one of three hops and for
   * this very relay, with both shares contributory. Its answer repeats the context and the keys, and
   * confirms, under a key derived from both shares and the transcript, that very transcript.
   */
  lemma AcceptsExactly(c: Crypto, request: Bytes, relaySecret: Key32, ephemeral: Key32, now: u64)
    requires c.Lawful()
    ensures var parsed, reply := ParseRequest(request), Accept(c, request, relaySecret, ephemeral, now);
            if parsed.Err? then reply == Err(parsed.error)
            else
              var r := parsed.value;
              var shared := c.agree(relaySecret, r.initiator) + c.agree(ephemeral, r.initiator);
              var transcript := Transcript(r.context, r.initiator, c.public(ephemeral), r.relay);
              var key := c.expand(transcript, shared)[72..];
              if r.context.expiresAt <= now then reply == Err(Expired)
              else if r.context.hop >= 3 then reply == Err(HopLimit)
              else if r.relay != c.public(relaySecret) then reply == Err(WrongScope)
              else if !c.contributory(c.agree(relaySecret, r.initiator))
                      || !c.contributory(c.agree(ephemeral, r.initiator)) then reply == Err(KeyAgreementFailed)
              else
                && reply.Ok? && reply.value.1 == DeriveKeys(c, shared, transcript, r.context).0
                && ParseResponse(reply.value.0) == Ok(SetupResponse(
                     r.context, r.initiator, c.public(ephemeral), r.relay, c.seal(key, Zeros(12), transcript, []).1))
  {
    var parsed, reply := ParseRequest(request), Accept(c, request, relaySecret, ephemeral, now);
    if reply.Ok? {
      var r := parsed.value;
      var transcript := Transcript(r.context, r.initiator, c.public(ephemeral), r.relay);
      var shared := c.agree(relaySecret, r.initiator) + c.agree(ephemeral, r.initiator);
      var key := c.expand(transcript, shared)[72..];
      assert key == c.expand(transcript, shared)[72..104];
      ResponseParsesBack(SetupResponse(
        r.context, r.initiator, c.public(ephemeral), r.relay, c.seal(key, Zeros(12), transcript, []).1));
    }
    hide ParseRequest, ParseResponse, EncodeResponse, Transcript;
  }

  /** The one response a pending setup can accept from a given responder key. */
  function ExpectedResponse(c: Crypto, pending: PendingSetup, responder: Key32): Bytes
    requires forall t: Bytes, s: Bytes :: |c.expand(t, s)| == 104
    requires forall key: Key32, nonce: Bytes, aad: Bytes, plain: Bytes :: |c.seal(key, nonce, aad, plain).1| == 16
  {
    var transcript := Transcript(pending.context, pending.initiator, responder, pending.relay);
    var shared := c.agree(pending.secret, pending.relay) + c.agree(pending.secret, responder);
    var tag := ConfirmationTag(c, DeriveKeys(c, shared, transcript, pending.context).1, transcript);
    EncodeResponse(SetupResponse(pending.context, pending.initiator, responder, pending.relay, tag))
  }

  predicate Contributory(c: Crypto, pending: PendingSetup, responder: Key32) {
    c.contributory(c.agree(pending.secret, pending.relay)) && c.contributory(c.agree(pending.secret, responder))
  }

  /**
   * The initiator accepts a byte string exactly when, in time, it is the expected response of some
   * responder key with contributory shares: no other byte of it may differ.
   */
  lemma FinishAcceptsExactly(c: Crypto, pending: PendingSetup, response: Bytes, now: u64)
    requires c.Lawful()
    ensures Finish(c, pending, response, now).Ok? <==>
            && now < pending.context.expiresAt && pending.context.hop < 3
            && exists responder: Key32 ::
                 response == ExpectedResponse(c, pending, responder) && Contributory(c, pending, responder)
  {
    if Finish(c, pending, response, now).Ok? {
      var r := ParseResponse(response).value;
      ParsedResponseEncodesBack(response);
      assert response == ExpectedResponse(c, pending, r.responder) && Contributory(c, pending, r.responder);
    }
    forall responder: Key32 | response == ExpectedResponse(c, pending, responder) && Contributory(c, pending, responder)
      ensures now < pending.context.expiresAt && pending.context.hop < 3 ==> Finish(c, pending, response, now).Ok?
    {
      var transcript := Transcript(pending.context, pending.initiator, responder, pending.relay);
      var shared := c.agree(pending.secret, pending.relay) + c.agree(pending.secret, responder);
      var tag := ConfirmationTag(c, DeriveKeys(c, shared, transcript, pending.context).1, transcript);
      ResponseParsesBack(SetupResponse(pending.context, pending.initiator, responder, pending.relay, tag));
    }
  }

  /**
   * An undisturbed exchange ends with both sides holding the same keys, scoped to the requested
   * circuit. It fails at the relay exactly when one of the two shares is not contributory.
   */
  lemma HonestSetupAgrees(c: Crypto, context: SetupContext, secret: Key32, relaySecret: Key32, ephemeral: Key32,
                          started: u64, accepted: u64, finished: u64)
    requires c.Lawful() && context.hop < MAX_HOPS
    requires started < context.expiresAt && accepted < context.expiresAt && finished < context.expiresAt
    ensures var start := Start(c, context, secret, c.public(relaySecret), started);
            start.Ok? &&
            var reply := Accept(c, start.value.0, relaySecret, ephemeral, accepted);
            && (reply.Ok? <==> c.contributory(c.agree(relaySecret, c.public(secret)))
                               && c.contributory(c.agree(ephemeral, c.public(secret))))
            && (reply.Ok? ==>
                  && Finish(c, start.value.1, reply.value.0, finished) == Ok(reply.value.1)
                  && reply.value.1.circuitId == context.circuitId && reply.value.1.hop == context.hop
                  && reply.value.1.epoch == context.epoch && reply.value.1.expiresAt == context.expiresAt)
  {
    var relay, initiator, responder := c.public(relaySecret), c.public(secret), c.public(ephemeral);
    RequestParsesBack(SetupRequest(context, initiator, relay));
    var start := Start(c, context, secret, relay, started);
    var reply := Accept(c, start.value.0, relaySecret, ephemeral, accepted);
    if reply.Ok? {
      var shared := c.agree(relaySecret, initiator) + c.agree(ephemeral, initiator);
      assert shared == c.agree(secret, relay) + c.agree(secret, responder);
      var transcript := Transcript(context, initiator, responder, relay);
      var tag := ConfirmationTag(c, DeriveKeys(c, shared, transcript, context).1, transcript);
      ResponseParsesBack(SetupResponse(context, initiator, responder, relay, tag));
    }
  }
}
