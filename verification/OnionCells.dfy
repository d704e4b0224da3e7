/**
 * Fixed-size onion cells: one header, one sealed layer, zero padding. A route of one to three
 * hops nests layers; each hop removes exactly its own.
 */
module OnionCells {
  import opened Common
  import opened OnionSetup
  import BE = BigEndian
  import R = Replay

  const CELL_SIZE: nat := 1024
  const CELL_HEADER_SIZE: nat := 50
  const TAG_SIZE: nat := 16
  const LAYER_HEADER_SIZE: nat := 3
  const LAYER_OVERHEAD: nat := CELL_HEADER_SIZE + TAG_SIZE + LAYER_HEADER_SIZE
  const MAX_LAYER_DATA: nat := CELL_SIZE - LAYER_OVERHEAD

  const CELL_MAGIC: Bytes := [0x50, 0x4C, 0x43, 0x31]

  datatype Direction = Forward | Reverse

  datatype CellType = Setup | Data | Padding | Response | Rotation | Teardown

  datatype CellHeader = CellHeader(
    direction: Direction, circuitId: Id16, epoch: u64, expiresAt: u64, sequence: u64, ciphertextLen: u16)

  function DirectionCode(d: Direction): byte {
    match d case Forward => 1 case Reverse => 2
  }

  function DirectionOf(code: byte): Option<Direction> {
    if code == 1 then Some(Forward) else if code == 2 then Some(Reverse) else None
  }

  function TypeCode(t: CellType): byte {
    match t
    case Setup => 1 case Data => 2 case Padding => 3
    case Response => 4 case Rotation => 5 case Teardown => 6
  }

  function TypeOf(code: byte): Option<CellType> {
    match code
    case 1 => Some(Setup) case 2 => Some(Data) case 3 => Some(Padding)
    case 4 => Some(Response) case 5 => Some(Rotation) case 6 => Some(Teardown)
    case _ => None
  }

  /** The bytes that stand for directions and cell types on the wire; no other byte stands for any. */
  lemma WireCodes(code: byte, d: Direction, t: CellType)
    ensures DirectionOf(code) == Some(d) <==> (code == 1 && d == Forward) || (code == 2 && d == Reverse)
    ensures TypeOf(code) == Some(t) <==> code == TypeCode(t)
    ensures code == TypeCode(t) <==>
            || (code == 1 && t == Setup) || (code == 2 && t == Data) || (code == 3 && t == Padding)
            || (code == 4 && t == Response) || (code == 5 && t == Rotation) || (code == 6 && t == Teardown)
  {
  }

  function MaxPayloadForHops(hops: nat): Result<nat, OnionError> {
    if hops == 0 || hops > MAX_HOPS then Err(HopLimit)
    else Ok(MAX_LAYER_DATA - (hops - 1) * LAYER_OVERHEAD)
  }

  // ----- Cell header -----

  function EncodeHeader(h: CellHeader): (s: Bytes)
    ensures |s| == CELL_HEADER_SIZE
  {
    CELL_MAGIC + BE.U16(PROTOCOL_VERSION) + [1, DirectionCode(h.direction)] + h.circuitId
    + BE.U64(h.epoch) + BE.U64(h.expiresAt) + BE.U64(h.sequence) + BE.U16(h.ciphertextLen)
  }

  /** Fills the header's fixed array field by field. */
  method WriteHeader(h: CellHeader) returns (buffer: array<byte>)
    ensures fresh(buffer) && buffer[..] == EncodeHeader(h)
  {
    buffer := new byte[CELL_HEADER_SIZE](_ => 0);
    WriteHeaderFields(buffer, CELL_MAGIC, BE.U16(PROTOCOL_VERSION), DirectionCode(h.direction), h.circuitId,
                      BE.U64(h.epoch), BE.U64(h.expiresAt), BE.U64(h.sequence), BE.U16(h.ciphertextLen));
  }

  method WriteHeaderFields(buffer: array<byte>, magic: Bytes, version: Bytes, d: byte, circuit: Bytes, epoch: Bytes,
                           expiry: Bytes, sequence: Bytes, length: Bytes)
    requires |magic| == 4 && |version| == |length| == 2 && |circuit| == 16
    requires |epoch| == |expiry| == |sequence| == 8
    requires buffer.Length == CELL_HEADER_SIZE && ZeroFrom(buffer, 0)
    modifies buffer
    ensures buffer[..] == magic + version + [1, d] + circuit + epoch + expiry + sequence + length
  {
    CopySlice(buffer, 0, magic);
    CopySlice(buffer, 4, version);
    CopySlice(buffer, 6, [1, d]);
    CopySlice(buffer, 8, circuit);
    CopySlice(buffer, 24, epoch);
    CopySlice(buffer, 32, expiry);
    CopySlice(buffer, 40, sequence);
    CopySlice(buffer, 48, length);
    assert buffer[..] == buffer[..50];
  }

  function ParseHeader(s: Bytes): Result<CellHeader, OnionError>
    requires |s| == CELL_SIZE
  {
    if s[..4] != CELL_MAGIC || s[6] != 1 then Err(InvalidEncoding)
    else if BE.ReadU16(s[4..6]) != PROTOCOL_VERSION then Err(UnsupportedVersion)
    else
      var ciphertextLen := BE.ReadU16(s[48..50]);
      var compactLen := CELL_HEADER_SIZE + ciphertextLen;
      if ciphertextLen < TAG_SIZE + LAYER_HEADER_SIZE || compactLen > CELL_SIZE || !AllZero(s[compactLen..])
      then Err(InvalidEncoding)
      else
        match DirectionOf(s[7])
        case None => Err(InvalidEncoding)
        case Some(direction) =>
          Ok(CellHeader(direction, s[8..24], BE.ReadU64(s[24..32]), BE.ReadU64(s[32..40]),
                        BE.ReadU64(s[40..48]), ciphertextLen))
  }

  lemma HeaderSlices(magic: Bytes, version: Bytes, d: byte, circuit: Bytes, epoch: Bytes, expiry: Bytes,
                     sequence: Bytes, length: Bytes, rest: Bytes)
    requires |magic| == 4 && |version| == |length| == 2 && |circuit| == 16
    requires |epoch| == |expiry| == |sequence| == 8
    ensures var s := magic + version + [1, d] + circuit + epoch + expiry + sequence + length + rest;
            && s[..4] == magic && s[4..6] == version && s[6] == 1 && s[7] == d && s[8..24] == circuit
            && s[24..32] == epoch && s[32..40] == expiry && s[40..48] == sequence && s[48..50] == length
  {
  }

  lemma HeaderRejoins(s: Bytes)
    requires |s| >= 50
    ensures s[..50] == s[..4] + s[4..6] + [s[6], s[7]] + s[8..24] + s[24..32] + s[32..40] + s[40..48] + s[48..50]
  {
  }

  /** A header followed by its ciphertext and zero padding parses to itself. */
  lemma HeaderParsesBack(h: CellHeader, body: Bytes)
    requires TAG_SIZE + LAYER_HEADER_SIZE <= h.ciphertextLen == |body|
    requires CELL_HEADER_SIZE + |body| <= CELL_SIZE
    ensures ParseHeader(EncodeHeader(h) + body + Zeros(CELL_SIZE - CELL_HEADER_SIZE - |body|)) == Ok(h)
  {
    var zeros := Zeros(CELL_SIZE - CELL_HEADER_SIZE - |body|);
    var s := EncodeHeader(h) + body + zeros;
    assert s == EncodeHeader(h) + (body + zeros);
    HeaderSlices(CELL_MAGIC, BE.U16(PROTOCOL_VERSION), DirectionCode(h.direction), h.circuitId,
                 BE.U64(h.epoch), BE.U64(h.expiresAt), BE.U64(h.sequence), BE.U16(h.ciphertextLen), body + zeros);
    BE.U16RoundTrip(PROTOCOL_VERSION);
    BE.U16RoundTrip(h.ciphertextLen);
    BE.U64RoundTrip(h.epoch);
    BE.U64RoundTrip(h.expiresAt);
    BE.U64RoundTrip(h.sequence);
    assert s[CELL_HEADER_SIZE + |body|..] == zeros;
  }

  /** Every accepted cell is the encoding of the header it parses to, its ciphertext, and nothing but zeros. */
  lemma ParsedHeaderEncodesBack(s: Bytes)
    requires |s| == CELL_SIZE && ParseHeader(s).Ok?
    ensures EncodeHeader(ParseHeader(s).value) == s[..CELL_HEADER_SIZE]
    ensures var length := ParseHeader(s).value.ciphertextLen;
            && TAG_SIZE + LAYER_HEADER_SIZE <= length && CELL_HEADER_SIZE + length <= CELL_SIZE
            && s[CELL_HEADER_SIZE + length..] == Zeros(CELL_SIZE - CELL_HEADER_SIZE - length)
  {
    BE.U16Exact(s[4..6]);
    BE.U64Exact(s[24..32]);
    BE.U64Exact(s[32..40]);
    BE.U64Exact(s[40..48]);
    BE.U16Exact(s[48..50]);
    HeaderRejoins(s);
  }

  // ----- Sealing and opening one layer -----

  function KeyAndNonce(keys: HopKeys, direction: Direction, sequence: u64): (Key32, Bytes) {
    match direction
    case Forward => (keys.forwardKey, keys.forwardPrefix + BE.U64(sequence))
    case Reverse => (keys.reverseKey, keys.reversePrefix + BE.U64(sequence))
  }

  function HeaderFor(keys: HopKeys, direction: Direction, sequence: u64, ciphertextLen: u16): CellHeader {
    CellHeader(direction, keys.circuitId, keys.epoch, keys.expiresAt, sequence, ciphertextLen)
  }

  function LayerPlaintext(layerType: byte, data: Bytes): (s: Bytes)
    requires |data| <= MAX_LAYER_DATA
    ensures |s| == LAYER_HEADER_SIZE + |data|
  {
    [layerType] + BE.U16(|data|) + data
  }

  /** One sealed layer without its padding: header, ciphertext, tag. */
  function SealCompact(c: Crypto, keys: HopKeys, direction: Direction, sequence: u64, layerType: byte, data: Bytes)
    : Result<Bytes, OnionError>
  {
    if |data| > MAX_LAYER_DATA then Err(PayloadTooLarge)
    else
      var plaintext := LayerPlaintext(layerType, data);
      var ciphertextLen := |plaintext| + TAG_SIZE;
      var header := EncodeHeader(HeaderFor(keys, direction, sequence, ciphertextLen));
      var aad := header + Zeros(CELL_SIZE - (CELL_HEADER_SIZE + ciphertextLen));
      var (key, nonce) := KeyAndNonce(keys, direction, sequence);
      var (ciphertext, tag) := c.seal(key, nonce, aad, plaintext);
      Ok(header + ciphertext + tag)
  }

  /** Pads a compact layer to a wire cell. */
  function FromCompact(compact: Bytes): (r: Result<Bytes, OnionError>)
    ensures r.Ok? ==> |r.value| == CELL_SIZE && ParseHeader(r.value).Ok?
    ensures r.Ok? ==> LAYER_OVERHEAD <= |compact| <= CELL_SIZE && r.value == compact + Zeros(CELL_SIZE - |compact|)
  {
    if |compact| > CELL_SIZE || |compact| < LAYER_OVERHEAD then Err(InvalidEncoding)
    else
      var cell := compact + Zeros(CELL_SIZE - |compact|);
      var header := ParseHeader(cell);
      if header.Err? then Err(header.error) else Ok(cell)
  }

  predicate IsWireCell(cell: Bytes) {
    |cell| == CELL_SIZE && ParseHeader(cell).Ok?
  }

  function Compact(cell: Bytes): Bytes
    requires IsWireCell(cell)
  {
    cell[..CELL_HEADER_SIZE + ParseHeader(cell).value.ciphertextLen]
  }

  datatype Opened = Transit(cell: Bytes) | Terminal(cellType: CellType, payload: Bytes)

  /** What a decrypted layer means: type 0 carries an inner cell, the other types a payload. */
  function ReadLayer(plaintext: Bytes): Result<Opened, OnionError> {
    if |plaintext| < LAYER_HEADER_SIZE then Err(InvalidEncoding)
    else if BE.ReadU16(plaintext[1..3]) != |plaintext| - LAYER_HEADER_SIZE then Err(InvalidEncoding)
    else LayerMeaning(plaintext[0], plaintext[LAYER_HEADER_SIZE..])
  }

  function LayerMeaning(layerType: byte, data: Bytes): Result<Opened, OnionError> {
    if layerType == 0 then
      match FromCompact(data)
      case Ok(cell) => Ok(Transit(cell))
      case Err(error) => Err(error)
    else
      match TypeOf(layerType)
      case Some(cellType) => Ok(Terminal(cellType, data))
      case None => Err(InvalidEncoding)
  }

  /** Authenticates and decrypts the layer of a cell whose header is already trusted to be in scope. */
  function Decrypt(c: Crypto, keys: HopKeys, cell: Bytes): Option<Bytes>
    requires IsWireCell(cell)
  {
    var header := ParseHeader(cell).value;
    var ciphertextEnd := CELL_HEADER_SIZE + header.ciphertextLen;
    var tagStart := ciphertextEnd - TAG_SIZE;
    var aad := cell[..CELL_HEADER_SIZE] + cell[ciphertextEnd..];
    var (key, nonce) := KeyAndNonce(keys, header.direction, header.sequence);
    c.open(key, nonce, aad, cell[CELL_HEADER_SIZE..tagStart], cell[tagStart..ciphertextEnd])
  }

  function OpenLayer(c: Crypto, keys: HopKeys, window: R.Window, cell: Bytes, expected: Direction, now: u64)
    : (Result<Opened, OnionError>, R.Window)
    requires IsWireCell(cell)
  {
    var header := ParseHeader(cell).value;
    if header.direction != expected || header.circuitId != keys.circuitId || header.epoch != keys.epoch
       || header.expiresAt != keys.expiresAt then (Err(WrongScope), window)
    else if header.expiresAt <= now then (Err(Expired), window)
    else
      match R.Check(window, header.sequence)
      case OutOfWindow => (Err(OutOfWindow), window)
      case Replayed => (Err(Replay), window)
      case Fresh =>
        match Decrypt(c, keys, cell)
        case None => (Err(AuthenticationFailed), window)
        case Some(plaintext) =>
          var outcome := ReadLayer(plaintext);
          FreshIsCommittable(window, header.sequence);
          (outcome, if outcome.Ok? then R.Commit(window, header.sequence) else window)
  }

  lemma FreshIsCommittable(window: R.Window, sequence: u64)
    requires R.Check(window, sequence) == R.Fresh
    ensures R.Committable(window, sequence)
  {
  }

  /** Every plaintext that can be read is the plaintext of what is read: type, exact length, data. */
  lemma ReadLayerIsCanonical(plaintext: Bytes)
    requires ReadLayer(plaintext).Ok?
    ensures 3 <= |plaintext| <= 3 + 0xFFFF
    ensures plaintext == [plaintext[0]] + BE.U16(|plaintext| - 3) + plaintext[3..]
    ensures ReadLayer(plaintext) == LayerMeaning(plaintext[0], plaintext[3..])
  {
    BE.U16Exact(plaintext[1..3]);
  }

  lemma LayerReadsBack(layerType: byte, data: Bytes)
    requires |data| <= MAX_LAYER_DATA
    ensures ReadLayer(LayerPlaintext(layerType, data)) == LayerMeaning(layerType, data)
  {
    var plaintext := LayerPlaintext(layerType, data);
    assert plaintext[1..3] == BE.U16(|data|);
    BE.U16RoundTrip(|data|);
    assert plaintext[LAYER_HEADER_SIZE..] == data;
  }

  /**
   * What a layer gives the AEAD: the direction's own key, a nonce of 12 bytes that is its prefix and the
   * sequence, and everything else of the cell as associated data.
   */
  lemma SealedWith(c: Crypto, keys: HopKeys, direction: Direction, sequence: u64, layerType: byte, data: Bytes)
    requires |data| <= MAX_LAYER_DATA
    ensures var key := if direction == Forward then keys.forwardKey else keys.reverseKey;
            var prefix := if direction == Forward then keys.forwardPrefix else keys.reversePrefix;
            var length := LAYER_HEADER_SIZE + |data| + TAG_SIZE;
            var header := EncodeHeader(
              CellHeader(direction, keys.circuitId, keys.epoch, keys.expiresAt, sequence, length));
            var sealed := c.seal(key, prefix + BE.U64(sequence), header + Zeros(CELL_SIZE - CELL_HEADER_SIZE - length),
                                 [layerType] + BE.U16(|data|) + data);
            SealCompact(c, keys, direction, sequence, layerType, data) == Ok(header + sealed.0 + sealed.1)
  {
  }

  /** For one hop and direction, different sequences have different nonces; the two directions have their own keys. */
  lemma NonceIsItsSequence(keys: HopKeys, direction: Direction, x: u64, y: u64)
    ensures |KeyAndNonce(keys, direction, x).1| == 12
    ensures KeyAndNonce(keys, direction, x).1 == KeyAndNonce(keys, direction, y).1 <==> x == y
    ensures KeyAndNonce(keys, direction, x).0 == if direction == Forward then keys.forwardKey else keys.reverseKey
  {
    var a, b := KeyAndNonce(keys, direction, x).1, KeyAndNonce(keys, direction, y).1;
    assert a[4..] == BE.U64(x) && b[4..] == BE.U64(y);
    BE.U64RoundTrip(x);
    BE.U64RoundTrip(y);
  }

  /** The cell a sealed layer travels in: its header, and what decrypting it yields. */
  lemma SealedCell(c: Crypto, keys: HopKeys, direction: Direction, sequence: u64, layerType: byte, data: Bytes)
    requires c.Lawful() && |data| <= MAX_LAYER_DATA
    ensures var compact := SealCompact(c, keys, direction, sequence, layerType, data);
            && compact.Ok? && |compact.value| == LAYER_OVERHEAD + |data|
            && FromCompact(compact.value).Ok?
            && var cell := FromCompact(compact.value).value;
            && IsWireCell(cell) && Compact(cell) == compact.value
            && ParseHeader(cell).value
               == HeaderFor(keys, direction, sequence, LAYER_HEADER_SIZE + |data| + TAG_SIZE)
            && Decrypt(c, keys, cell) == Some(LayerPlaintext(layerType, data))
  {
    hide ParseHeader, EncodeHeader, Zeros, KeyAndNonce, LayerPlaintext;
    var plaintext := LayerPlaintext(layerType, data);
    var h := HeaderFor(keys, direction, sequence, |plaintext| + TAG_SIZE);
    var header := EncodeHeader(h);
    var zeros := Zeros(CELL_SIZE - (CELL_HEADER_SIZE + h.ciphertextLen));
    var (key, nonce) := KeyAndNonce(keys, direction, sequence);
    var (ciphertext, tag) := c.seal(key, nonce, header + zeros, plaintext);
    assert |ciphertext| == |plaintext| && |tag| == TAG_SIZE;
    HeaderParsesBack(h, ciphertext + tag);
    CellSlices(header, ciphertext, tag, zeros);
  }

  lemma CellSlices(header: Bytes, ciphertext: Bytes, tag: Bytes, zeros: Bytes)
    requires |tag| == TAG_SIZE
    ensures var cell := header + ciphertext + tag + zeros;
            var end := |header| + |ciphertext| + TAG_SIZE;
            && cell == header + (ciphertext + tag) + zeros
            && cell[..|header|] == header && cell[end..] == zeros && cell[..end] == header + ciphertext + tag
            && cell[|header|..end - TAG_SIZE] == ciphertext && cell[end - TAG_SIZE..end] == tag
  {
  }

  /** A cell sealed for another circuit, epoch, expiry or direction is refused and leaves the window alone. */
  lemma ForeignCellIsRefused(c: Crypto, theirs: HopKeys, sent: Direction, sequence: u64, layerType: byte, data: Bytes,
                             keys: HopKeys, expected: Direction, window: R.Window, now: u64)
    requires c.Lawful() && |data| <= MAX_LAYER_DATA
    ensures var compact := SealCompact(c, theirs, sent, sequence, layerType, data);
            && compact.Ok? && FromCompact(compact.value).Ok?
            && var result := OpenLayer(c, keys, window, FromCompact(compact.value).value, expected, now);
               if theirs.circuitId != keys.circuitId || theirs.epoch != keys.epoch || theirs.expiresAt != keys.expiresAt
                  || sent != expected
               then result == (Err(WrongScope), window)
               else keys.expiresAt <= now ==> result == (Err(Expired), window)
  {
    SealedCell(c, theirs, sent, sequence, layerType, data);
    hide SealCompact, FromCompact, Decrypt, ReadLayer, ParseHeader;
  }

  /** Opening undoes sealing for the hop that holds the keys, in scope, in time and in window. */
  lemma OpenUndoesSeal(c: Crypto, keys: HopKeys, window: R.Window, direction: Direction, sequence: u64,
                       layerType: byte, data: Bytes, now: u64)
    requires c.Lawful() && |data| <= MAX_LAYER_DATA && now < keys.expiresAt
    ensures var compact := SealCompact(c, keys, direction, sequence, layerType, data);
            && compact.Ok? && FromCompact(compact.value).Ok?
            && var result := OpenLayer(c, keys, window, FromCompact(compact.value).value, direction, now);
               match R.Check(window, sequence) {
                 case OutOfWindow => result == (Err(OutOfWindow), window)
                 case Replayed => result == (Err(Replay), window)
                 case Fresh =>
                   && result.0 == LayerMeaning(layerType, data)
                   && R.Committable(window, sequence)
                   && result.1 == (if result.0.Ok? then R.Commit(window, sequence) else window)
               }
  {
    SealedCell(c, keys, direction, sequence, layerType, data);
    LayerReadsBack(layerType, data);
    if R.Check(window, sequence) == R.Fresh { FreshIsCommittable(window, sequence); }
  }
}
