/**
 * No key is ever used twice with one nonce: over every run of a sender, and of a relay that adds its
 * own layers in both directions.
 */
module OnionNonces {
  import opened Common
  import opened OnionSetup
  import opened OnionCells
  import opened OnionRoutes

  /** A layer whose ciphertext and tag come from this key and nonce. */
  ghost predicate SealedUnder(c: Crypto, layer: Bytes, key: Key32, nonce: Bytes) {
    exists header: Bytes, aad: Bytes, plain: Bytes ::
      layer == header + c.seal(key, nonce, aad, plain).0 + c.seal(key, nonce, aad, plain).1
  }

  /** A layer sealed under the hop's key for the direction and the nonce of a sequence. */
  ghost predicate SealedFor(c: Crypto, layer: Bytes, keys: HopKeys, direction: Direction, sequence: u64) {
    SealedUnder(c, layer, KeyAndNonce(keys, direction, sequence).0, KeyAndNonce(keys, direction, sequence).1)
  }

  lemma LayerIsSealedFor(c: Crypto, keys: HopKeys, direction: Direction, sequence: u64, layerType: byte, data: Bytes)
    requires SealCompact(c, keys, direction, sequence, layerType, data).Ok?
    ensures SealedFor(c, SealCompact(c, keys, direction, sequence, layerType, data).value, keys, direction, sequence)
  {
    var (key, nonce) := KeyAndNonce(keys, direction, sequence);
    var plain := LayerPlaintext(layerType, data);
    var header := EncodeHeader(HeaderFor(keys, direction, sequence, |plain| + TAG_SIZE));
    var aad := header + Zeros(CELL_SIZE - (CELL_HEADER_SIZE + |plain| + TAG_SIZE));
    hide KeyAndNonce, EncodeHeader, Zeros, LayerPlaintext;
    assert SealCompact(c, keys, direction, sequence, layerType, data).value
        == header + c.seal(key, nonce, aad, plain).0 + c.seal(key, nonce, aad, plain).1;
  }

  // ----- A sender -----

  datatype Post = Post(cellType: CellType, payload: Bytes)

  /** A cell that went out, and the sequence it carries. */
  datatype Outgoing = Outgoing(sequence: u64, post: Post, cell: Bytes)

  /** A sender's counter and the cells it has made, after posting one message after the other. */
  datatype Progress = Progress(next: u64, sent: seq<Outgoing>)

  function SenderAfter(c: Crypto, keys: seq<HopKeys>, direction: Direction, posts: seq<Post>): Progress
    requires keys != []
  {
    if posts == [] then Progress(0, [])
    else
      var p, post := SenderAfter(c, keys, direction, posts[..|posts| - 1]), posts[|posts| - 1];
      match SealAt(c, keys, direction, p.next, post.cellType, post.payload)
      case Err(_) => p
      case Ok(cell) => Progress(p.next + 1, p.sent + [Outgoing(p.next, post, cell)])
  }

  /** Cells are numbered by their position, and each is the onion of its message under that number. */
  lemma {:induction false} SentInOrder(c: Crypto, keys: seq<HopKeys>, direction: Direction, posts: seq<Post>)
    requires keys != []
    ensures var p := SenderAfter(c, keys, direction, posts);
            && p.next == |p.sent|
            && forall i | 0 <= i < |p.sent| ::
                 && p.sent[i].sequence == i
                 && SealAt(c, keys, direction, i, p.sent[i].post.cellType, p.sent[i].post.payload) == Ok(p.sent[i].cell)
    decreases |posts|
  {
    hide SealAt;
    if posts != [] { SentInOrder(c, keys, direction, posts[..|posts| - 1]); }
  }

  /** The layer that one hop of the route removes from an outgoing cell. */
  function LayerOf(c: Crypto, keys: seq<HopKeys>, direction: Direction, o: Outgoing, hop: nat)
    : Result<Bytes, OnionError>
    requires hop < |keys|
  {
    SealOnion(c, SameSequence(keys, o.sequence)[hop..], direction, o.post.cellType, o.post.payload)
  }

  /**
   * However many messages a sender seals, of whatever sizes and with failures among them: the layers that
   * a hop removes from two of its cells are sealed under that hop's key, with different nonces.
   */
  lemma SenderNeverReusesNonce(
    c: Crypto, keys: seq<HopKeys>, direction: Direction, posts: seq<Post>, i: nat, j: nat, hop: nat)
    requires hop < |keys| && i < j < |SenderAfter(c, keys, direction, posts).sent|
    ensures var x, y := SenderAfter(c, keys, direction, posts).sent[i], SenderAfter(c, keys, direction, posts).sent[j];
            && LayerOf(c, keys, direction, x, hop).Ok? && LayerOf(c, keys, direction, y, hop).Ok?
            && SealedFor(c, LayerOf(c, keys, direction, x, hop).value, keys[hop], direction, x.sequence)
            && SealedFor(c, LayerOf(c, keys, direction, y, hop).value, keys[hop], direction, y.sequence)
            && KeyAndNonce(keys[hop], direction, x.sequence).1 != KeyAndNonce(keys[hop], direction, y.sequence).1
  {
    var sent := SenderAfter(c, keys, direction, posts).sent;
    SentInOrder(c, keys, direction, posts);
    hide SenderAfter, KeyAndNonce, SealedFor, SealAt, LayerOf;
    InnerLayer(c, keys, direction, sent[i], hop);
    InnerLayer(c, keys, direction, sent[j], hop);
    NonceIsItsSequence(keys[hop], direction, sent[i].sequence, sent[j].sequence);
  }

  lemma InnerLayer(c: Crypto, keys: seq<HopKeys>, direction: Direction, o: Outgoing, hop: nat)
    requires hop < |keys| && SealAt(c, keys, direction, o.sequence, o.post.cellType, o.post.payload).Ok?
    ensures LayerOf(c, keys, direction, o, hop).Ok?
    ensures SealedFor(c, LayerOf(c, keys, direction, o, hop).value, keys[hop], direction, o.sequence)
  {
    var hops := SameSequence(keys, o.sequence);
    hide SealCompact, FromCompact, SealedFor;
    if SealOnion(c, hops[hop..], direction, o.post.cellType, o.post.payload).Err? {
      InnerErrorSurfaces(c, hops, hop, direction, o.post.cellType, o.post.payload);
    }
    var rest := hops[hop..];
    assert rest[0] == Hop(keys[hop], o.sequence);
    if |rest| == 1 {
      LayerIsSealedFor(c, keys[hop], direction, o.sequence, TypeCode(o.post.cellType), o.post.payload);
    } else {
      var inner := SealOnion(c, rest[1..], direction, o.post.cellType, o.post.payload).value;
      LayerIsSealedFor(c, keys[hop], direction, o.sequence, 0, inner);
    }
  }

  // ----- A relay -----

  datatype Addition = Addition(direction: Direction, layerType: byte, payload: Bytes)

  datatype Added = Added(sequence: u64, addition: Addition, cell: Bytes)

  /** A relay's two counters and the cells it has made. */
  datatype Relay = Relay(forward: u64, reverse: u64, added: seq<Added>)
  {
    function Next(direction: Direction): u64 {
      if direction == Forward then forward else reverse
    }
  }

  function RelayAfter(c: Crypto, keys: HopKeys, additions: seq<Addition>): Relay {
    if additions == [] then Relay(0, 0, [])
    else
      var r, a := RelayAfter(c, keys, additions[..|additions| - 1]), additions[|additions| - 1];
      match SealLayer(c, keys, a.direction, r.Next(a.direction), a.layerType, a.payload)
      case Err(_) => r
      case Ok(cell) => Grown(r, a, cell)
  }

  /** The cells are the relay's own layers, and those of one direction are numbered upwards. */
  predicate InOrder(c: Crypto, keys: HopKeys, r: Relay) {
    && (forall i | 0 <= i < |r.added| ::
          var a := r.added[i].addition;
          && r.added[i].sequence < r.Next(a.direction)
          && SealLayer(c, keys, a.direction, r.added[i].sequence, a.layerType, a.payload) == Ok(r.added[i].cell))
    && forall i, j | 0 <= i < j < |r.added| && r.added[i].addition.direction == r.added[j].addition.direction ::
         r.added[i].sequence < r.added[j].sequence
  }

  lemma {:induction false} AddedInOrder(c: Crypto, keys: HopKeys, additions: seq<Addition>)
    ensures InOrder(c, keys, RelayAfter(c, keys, additions))
    decreases |additions|
  {
    if additions != [] {
      var front, a := additions[..|additions| - 1], additions[|additions| - 1];
      AddedInOrder(c, keys, front);
      var r := RelayAfter(c, keys, front);
      var sealed := SealLayer(c, keys, a.direction, r.Next(a.direction), a.layerType, a.payload);
      if sealed.Ok? {
        SealedInRange(c, keys, a.direction, r.Next(a.direction), a.layerType, a.payload);
        AdditionKeepsOrder(c, keys, r, a, sealed.value);
      }
      hide InOrder, SealLayer;
    }
  }

  function Grown(r: Relay, a: Addition, cell: Bytes): Relay
    requires r.Next(a.direction) < U64_MAX
  {
    var added := r.added + [Added(r.Next(a.direction), a, cell)];
    if a.direction == Forward then Relay(r.forward + 1, r.reverse, added)
    else Relay(r.forward, r.reverse + 1, added)
  }

  lemma AdditionKeepsOrder(c: Crypto, keys: HopKeys, r: Relay, a: Addition, cell: Bytes)
    requires InOrder(c, keys, r) && r.Next(a.direction) < U64_MAX
    requires SealLayer(c, keys, a.direction, r.Next(a.direction), a.layerType, a.payload) == Ok(cell)
    ensures InOrder(c, keys, Grown(r, a, cell))
  {
    hide SealLayer;
    var grown := Grown(r, a, cell);
    forall i, j | 0 <= i < j < |grown.added| && grown.added[i].addition.direction == grown.added[j].addition.direction
      ensures grown.added[i].sequence < grown.added[j].sequence
    {
      assert grown.added[i] == r.added[i];
      assert j < |r.added| ==> grown.added[j] == r.added[j];
    }
  }

  lemma SealedInRange(c: Crypto, keys: HopKeys, direction: Direction, sequence: u64, layerType: byte, payload: Bytes)
    requires SealLayer(c, keys, direction, sequence, layerType, payload).Ok?
    ensures sequence < U64_MAX
  {
  }

  /**
   * However many layers a relay adds, in either direction: each is sealed under its own key for that
   * direction, and no two of one direction share a nonce.
   */
  lemma RelayNeverReusesNonce(c: Crypto, keys: HopKeys, additions: seq<Addition>, i: nat, j: nat)
    requires c.Lawful() && i < j < |RelayAfter(c, keys, additions).added|
    ensures var x, y := RelayAfter(c, keys, additions).added[i], RelayAfter(c, keys, additions).added[j];
            && IsWireCell(x.cell) && SealedFor(c, Compact(x.cell), keys, x.addition.direction, x.sequence)
            && IsWireCell(y.cell) && SealedFor(c, Compact(y.cell), keys, y.addition.direction, y.sequence)
            && (x.addition.direction == y.addition.direction ==>
                  KeyAndNonce(keys, x.addition.direction, x.sequence).1
                  != KeyAndNonce(keys, y.addition.direction, y.sequence).1)
  {
    var added := RelayAfter(c, keys, additions).added;
    AddedInOrder(c, keys, additions);
    hide RelayAfter, KeyAndNonce, SealedFor, SealLayer, ParseHeader;
    var x, y := added[i], added[j];
    AddedLayer(c, keys, x.addition.direction, x.sequence, x.addition.layerType, x.addition.payload);
    AddedLayer(c, keys, y.addition.direction, y.sequence, y.addition.layerType, y.addition.payload);
    NonceIsItsSequence(keys, x.addition.direction, x.sequence, y.sequence);
  }

  lemma AddedLayer(c: Crypto, keys: HopKeys, direction: Direction, sequence: u64, layerType: byte, payload: Bytes)
    requires c.Lawful() && SealLayer(c, keys, direction, sequence, layerType, payload).Ok?
    ensures var cell := SealLayer(c, keys, direction, sequence, layerType, payload).value;
            IsWireCell(cell) && SealedFor(c, Compact(cell), keys, direction, sequence)
  {
    hide SealedFor, FromCompact, ParseHeader;
    LayerIsSealedFor(c, keys, direction, sequence, layerType, payload);
    LayerSize(c, Hop(keys, sequence), direction, layerType, payload);
  }
}
