/**
 * Whole routes: nested sealing by the sender, hop-by-hop peeling, the reverse path, and the
 * stateful objects at each end. All statements are for every lawful AEAD.
 */
module OnionRoutes {
  import opened Common
  import opened OnionSetup
  import opened OnionCells
  import R = Replay

  /** One traversed hop with the sequence its layer is sealed under. */
  datatype Hop = Hop(keys: HopKeys, sequence: u64)

  /** The innermost layer is the last hop's; every other hop wraps what follows it. */
  function SealOnion(c: Crypto, hops: seq<Hop>, direction: Direction, cellType: CellType, payload: Bytes)
    : Result<Bytes, OnionError>
    requires hops != []
    decreases |hops|
  {
    var first := hops[0];
    if |hops| == 1 then SealCompact(c, first.keys, direction, first.sequence, TypeCode(cellType), payload)
    else
      match SealOnion(c, hops[1..], direction, cellType, payload)
      case Err(error) => Err(error)
      case Ok(inner) => SealCompact(c, first.keys, direction, first.sequence, 0, inner)
  }

  /** Nesting costs 69 bytes a hop, and running out of room is the only failure. */
  lemma {:induction false} OnionSize(
    c: Crypto, hops: seq<Hop>, direction: Direction, cellType: CellType, payload: Bytes)
    requires c.Lawful() && hops != []
    ensures var onion := SealOnion(c, hops, direction, cellType, payload);
            && (onion.Ok? <==> |payload| + (|hops| - 1) * LAYER_OVERHEAD <= MAX_LAYER_DATA)
            && (onion.Ok? ==>
                  && |onion.value| == |payload| + |hops| * LAYER_OVERHEAD
                  && FromCompact(onion.value).Ok? && Compact(FromCompact(onion.value).value) == onion.value)
            && (onion.Err? ==> onion.error == PayloadTooLarge)
    decreases |hops|
  {
    hide SealCompact, FromCompact, Compact;
    var first := hops[0];
    if |hops| == 1 {
      LayerSize(c, first, direction, TypeCode(cellType), payload);
    } else {
      OnionSize(c, hops[1..], direction, cellType, payload);
      var rest := SealOnion(c, hops[1..], direction, cellType, payload);
      if rest.Ok? { LayerSize(c, first, direction, 0, rest.value); }
    }
  }

  lemma LayerSize(c: Crypto, hop: Hop, direction: Direction, layerType: byte, data: Bytes)
    requires c.Lawful()
    ensures var compact := SealCompact(c, hop.keys, direction, hop.sequence, layerType, data);
            if |data| <= MAX_LAYER_DATA
            then
              && compact.Ok? && |compact.value| == |data| + LAYER_OVERHEAD
              && FromCompact(compact.value).Ok? && Compact(FromCompact(compact.value).value) == compact.value
            else compact == Err(PayloadTooLarge)
  {
    if |data| <= MAX_LAYER_DATA {
      SealedCell(c, hop.keys, direction, hop.sequence, layerType, data);
    }
  }

  // ----- Peeling along the path -----

  datatype Delivery =
    | Delivered(hop: nat, cellType: CellType, payload: Bytes)
    | LeftPath(cell: Bytes)
    | Dropped(hop: nat, error: OnionError)

  /** A cell handed from hop to hop, each opening its own layer and committing to its own window. */
  function Peel(
    c: Crypto, keys: seq<HopKeys>, windows: seq<R.Window>, cell: Bytes, direction: Direction, now: u64, at: nat)
    : (r: (Delivery, seq<R.Window>))
    requires |keys| == |windows| && IsWireCell(cell)
    ensures |r.1| == |keys|
    decreases |keys|
  {
    if keys == [] then (LeftPath(cell), [])
    else
      var (outcome, window) := OpenLayer(c, keys[0], windows[0], cell, direction, now);
      match outcome
      case Err(error) => (Dropped(at, error), [window] + windows[1..])
      case Ok(Terminal(cellType, payload)) => (Delivered(at, cellType, payload), [window] + windows[1..])
      case Ok(Transit(inner)) =>
        TransitIsWireCell(c, keys[0], windows[0], cell, direction, now);
        var (delivery, rest) := Peel(c, keys[1..], windows[1..], inner, direction, now, at + 1);
        (delivery, [window] + rest)
  }

  /** What a transit hop passes on is again a well-formed 1,024-byte cell. */
  lemma TransitIsWireCell(c: Crypto, keys: HopKeys, window: R.Window, cell: Bytes, direction: Direction, now: u64)
    requires IsWireCell(cell)
    ensures var outcome := OpenLayer(c, keys, window, cell, direction, now).0;
            outcome.Ok? && outcome.value.Transit? ==> IsWireCell(outcome.value.cell)
  {
  }

  function KeysOf(hops: seq<Hop>): (keys: seq<HopKeys>)
    ensures |keys| == |hops|
  {
    seq(|hops|, i requires 0 <= i < |hops| => hops[i].keys)
  }

  predicate AllFresh(hops: seq<Hop>, windows: seq<R.Window>)
    requires |hops| == |windows|
  {
    forall i | 0 <= i < |hops| :: R.Check(windows[i], hops[i].sequence) == R.Fresh
  }

  /** Every hop's window after it has accepted its layer. */
  function CommitAll(hops: seq<Hop>, windows: seq<R.Window>): (after: seq<R.Window>)
    requires |hops| == |windows| && AllFresh(hops, windows)
    ensures |after| == |hops|
    decreases |hops|
  {
    if hops == [] then []
    else
      FreshIsCommittable(windows[0], hops[0].sequence);
      [R.Commit(windows[0], hops[0].sequence)] + CommitAll(hops[1..], windows[1..])
  }

  ghost predicate Live(hops: seq<Hop>, now: u64) {
    forall i | 0 <= i < |hops| :: now < hops[i].keys.expiresAt
  }

  lemma TailOfPath(hops: seq<Hop>, windows: seq<R.Window>, now: u64)
    requires hops != [] && |windows| == |hops| && Live(hops, now) && AllFresh(hops, windows)
    ensures KeysOf(hops)[1..] == KeysOf(hops[1..]) && KeysOf(hops)[0] == hops[0].keys
    ensures Live(hops[1..], now) && AllFresh(hops[1..], windows[1..])
    ensures now < hops[0].keys.expiresAt && R.Check(windows[0], hops[0].sequence) == R.Fresh
  {
    hide R.Check;
  }

  lemma TerminalHop(
    c: Crypto, hop: Hop, window: R.Window, direction: Direction, cellType: CellType, payload: Bytes, now: u64)
    requires c.Lawful() && |payload| <= MAX_LAYER_DATA && now < hop.keys.expiresAt
    requires R.Check(window, hop.sequence) == R.Fresh
    ensures var compact := SealCompact(c, hop.keys, direction, hop.sequence, TypeCode(cellType), payload);
            && compact.Ok? && FromCompact(compact.value).Ok? && R.Committable(window, hop.sequence)
            && OpenLayer(c, hop.keys, window, FromCompact(compact.value).value, direction, now)
               == (Ok(Terminal(cellType, payload)), R.Commit(window, hop.sequence))
  {
    OpenUndoesSeal(c, hop.keys, window, direction, hop.sequence, TypeCode(cellType), payload, now);
    TypeRoundTrip(cellType);
  }

  lemma TransitHop(c: Crypto, hop: Hop, window: R.Window, direction: Direction, inner: Bytes, now: u64)
    requires c.Lawful() && |inner| <= MAX_LAYER_DATA && FromCompact(inner).Ok? && now < hop.keys.expiresAt
    requires R.Check(window, hop.sequence) == R.Fresh
    ensures var compact := SealCompact(c, hop.keys, direction, hop.sequence, 0, inner);
            && compact.Ok? && FromCompact(compact.value).Ok? && R.Committable(window, hop.sequence)
            && OpenLayer(c, hop.keys, window, FromCompact(compact.value).value, direction, now)
               == (Ok(Transit(FromCompact(inner).value)), R.Commit(window, hop.sequence))
  {
    OpenUndoesSeal(c, hop.keys, window, direction, hop.sequence, 0, inner, now);
  }

  lemma PeelTerminal(c: Crypto, keys: seq<HopKeys>, windows: seq<R.Window>, cell: Bytes, direction: Direction, now: u64,
                     at: nat, cellType: CellType, payload: Bytes, window: R.Window)
    requires |keys| == |windows| == 1 && IsWireCell(cell)
    requires OpenLayer(c, keys[0], windows[0], cell, direction, now) == (Ok(Terminal(cellType, payload)), window)
    ensures Peel(c, keys, windows, cell, direction, now, at) == (Delivered(at, cellType, payload), [window])
  {
    hide OpenLayer, ParseHeader;
    assert [window] + windows[1..] == [window];
  }

  lemma PeelTransit(c: Crypto, keys: seq<HopKeys>, windows: seq<R.Window>, cell: Bytes, direction: Direction, now: u64,
                    at: nat, inner: Bytes, window: R.Window)
    requires |keys| == |windows| > 0 && IsWireCell(cell) && IsWireCell(inner)
    requires OpenLayer(c, keys[0], windows[0], cell, direction, now) == (Ok(Transit(inner)), window)
    ensures var (delivery, rest) := Peel(c, keys[1..], windows[1..], inner, direction, now, at + 1);
            Peel(c, keys, windows, cell, direction, now, at) == (delivery, [window] + rest)
  {
    hide OpenLayer, ParseHeader;
  }

  lemma PeelDropped(c: Crypto, keys: seq<HopKeys>, windows: seq<R.Window>, cell: Bytes, direction: Direction, now: u64,
                    at: nat, error: OnionError)
    requires |keys| == |windows| > 0 && IsWireCell(cell)
    requires OpenLayer(c, keys[0], windows[0], cell, direction, now) == (Err(error), windows[0])
    ensures Peel(c, keys, windows, cell, direction, now, at) == (Dropped(at, error), windows)
  {
    hide OpenLayer, ParseHeader;
    assert [windows[0]] + windows[1..] == windows;
  }

  /**
   * Every sealed onion is delivered at the last hop, with the exact type and payload, when each
   * hop is in time and its window admits the layer; and exactly those windows advance.
   */
  lemma {:induction false} PeelDelivers(c: Crypto, hops: seq<Hop>, windows: seq<R.Window>, direction: Direction,
                                        cellType: CellType, payload: Bytes, now: u64, at: nat)
    requires c.Lawful() && hops != [] && |windows| == |hops|
    requires SealOnion(c, hops, direction, cellType, payload).Ok?
    requires Live(hops, now) && AllFresh(hops, windows)
    ensures var cell := FromCompact(SealOnion(c, hops, direction, cellType, payload).value);
            && cell.Ok?
            && Peel(c, KeysOf(hops), windows, cell.value, direction, now, at)
               == (Delivered(at + |hops| - 1, cellType, payload), CommitAll(hops, windows))
    decreases |hops|
  {
    hide OpenLayer, SealCompact, FromCompact, ParseHeader, R.Check, R.Commit, R.Committable, Peel, KeysOf, Live;
    var first, compact := hops[0], SealOnion(c, hops, direction, cellType, payload).value;
    var committed := CommitAll(hops, windows)[0];
    OnionSize(c, hops, direction, cellType, payload);
    TailOfPath(hops, windows, now);
    if |hops| == 1 {
      assert CommitAll(hops, windows) == [committed] by { assert CommitAll(hops[1..], windows[1..]) == []; }
      TerminalHop(c, first, windows[0], direction, cellType, payload, now);
      PeelTerminal(c, KeysOf(hops), windows, FromCompact(compact).value, direction, now, at,
                   cellType, payload, committed);
    } else {
      var rest := hops[1..];
      OnionSize(c, rest, direction, cellType, payload);
      var inner := SealOnion(c, rest, direction, cellType, payload).value;
      TransitHop(c, first, windows[0], direction, inner, now);
      PeelDelivers(c, rest, windows[1..], direction, cellType, payload, now, at + 1);
      PeelTransit(c, KeysOf(hops), windows, FromCompact(compact).value, direction, now, at,
                  FromCompact(inner).value, committed);
    }
  }

  lemma TypeRoundTrip(t: CellType)
    ensures TypeCode(t) != 0 && TypeOf(TypeCode(t)) == Some(t)
  {
  }

  // ----- The sender -----

  function SameSequence(keys: seq<HopKeys>, sequence: u64): (hops: seq<Hop>)
    ensures |hops| == |keys| && KeysOf(hops) == keys
  {
    seq(|keys|, i requires 0 <= i < |keys| => Hop(keys[i], sequence))
  }

  /** The cell a sender makes at one sequence: all layers share it, and the counter must not overflow. */
  function SealAt(
    c: Crypto, keys: seq<HopKeys>, direction: Direction, sequence: u64, cellType: CellType, payload: Bytes)
    : Result<Bytes, OnionError>
    requires keys != []
  {
    match SealOnion(c, SameSequence(keys, sequence), direction, cellType, payload)
    case Err(error) => Err(error)
    case Ok(compact) =>
      match FromCompact(compact)
      case Err(error) => Err(error)
      case Ok(cell) => if sequence == U64_MAX then Err(OutOfWindow) else Ok(cell)
  }

  /** Sealing succeeds exactly for the payloads the public bound announces, until the counter is spent. */
  lemma SealSucceedsExactly(c: Crypto, keys: seq<HopKeys>, direction: Direction, sequence: u64,
                            cellType: CellType, payload: Bytes)
    requires c.Lawful() && 1 <= |keys| <= MAX_HOPS
    ensures var sealed := SealAt(c, keys, direction, sequence, cellType, payload);
            var bound := MaxPayloadForHops(|keys|).value;
            && (sealed.Ok? <==> |payload| <= bound && sequence < U64_MAX)
            && (sealed.Ok? ==> IsWireCell(sealed.value))
            && (sealed.Err? ==> sealed.error == if |payload| <= bound then OutOfWindow else PayloadTooLarge)
  {
    hide SealOnion, FromCompact;
    OnionSize(c, SameSequence(keys, sequence), direction, cellType, payload);
  }

  function RouteError(keys: seq<HopKeys>): Option<OnionError> {
    if keys == [] || |keys| > MAX_HOPS then Some(HopLimit)
    else if exists i | 0 <= i < |keys| :: !SameScope(keys[i], keys[0]) then Some(WrongScope)
    else None
  }

  predicate SameScope(a: HopKeys, b: HopKeys) {
    a.circuitId == b.circuitId && a.epoch == b.epoch && a.expiresAt == b.expiresAt
  }

  // ----- The reverse path: each relay adds its own layer under its own counter -----

  function SealLayer(c: Crypto, keys: HopKeys, direction: Direction, sequence: u64, layerType: byte, payload: Bytes)
    : Result<Bytes, OnionError>
  {
    match SealCompact(c, keys, direction, sequence, layerType, payload)
    case Err(error) => Err(error)
    case Ok(compact) =>
      match FromCompact(compact)
      case Err(error) => Err(error)
      case Ok(cell) => if sequence == U64_MAX then Err(OutOfWindow) else Ok(cell)
  }

  /** The last hop seals the answer; every hop before it wraps the cell it is handed. */
  function ReverseCell(c: Crypto, hops: seq<Hop>, direction: Direction, cellType: CellType, payload: Bytes)
    : (r: Result<Bytes, OnionError>)
    requires hops != []
    ensures r.Ok? ==> IsWireCell(r.value)
    decreases |hops|
  {
    var first := hops[0];
    if |hops| == 1 then SealLayer(c, first.keys, direction, first.sequence, TypeCode(cellType), payload)
    else
      match ReverseCell(c, hops[1..], direction, cellType, payload)
      case Err(error) => Err(error)
      case Ok(inner) => SealLayer(c, first.keys, direction, first.sequence, 0, Compact(inner))
  }

  /** Wrapping cell by cell builds the same onion as sealing all layers at once. */
  lemma {:induction false} ReverseIsOnion(
    c: Crypto, hops: seq<Hop>, direction: Direction, cellType: CellType, payload: Bytes)
    requires c.Lawful() && hops != [] && forall i | 0 <= i < |hops| :: hops[i].sequence < U64_MAX
    ensures ReverseCell(c, hops, direction, cellType, payload) ==
            match SealOnion(c, hops, direction, cellType, payload) {
              case Err(error) => Err(error)
              case Ok(compact) => FromCompact(compact)
            }
    decreases |hops|
  {
    hide SealCompact, FromCompact, Compact, ParseHeader;
    OnionSize(c, hops, direction, cellType, payload);
    if |hops| > 1 {
      ReverseIsOnion(c, hops[1..], direction, cellType, payload);
      OnionSize(c, hops[1..], direction, cellType, payload);
    }
  }

  /**
   * An answer sealed by the last relay and wrapped by the others exists exactly when it fits the
   * route, and peels, hop by hop, back to the exact answer at the initiator.
   */
  lemma ReversePathDelivers(c: Crypto, hops: seq<Hop>, windows: seq<R.Window>, direction: Direction,
                            cellType: CellType, payload: Bytes, now: u64)
    requires c.Lawful() && 1 <= |hops| <= MAX_HOPS && |windows| == |hops|
    requires Live(hops, now) && AllFresh(hops, windows)
    requires forall i | 0 <= i < |hops| :: hops[i].sequence < U64_MAX
    ensures var cell := ReverseCell(c, hops, direction, cellType, payload);
            && (cell.Ok? <==> |payload| <= MaxPayloadForHops(|hops|).value)
            && (cell.Ok? ==>
                  Peel(c, KeysOf(hops), windows, cell.value, direction, now, 0)
                  == (Delivered(|hops| - 1, cellType, payload), CommitAll(hops, windows)))
  {
    hide FromCompact, ParseHeader, Peel, CommitAll, R.Check, ReverseCell, SealOnion;
    ReverseIsOnion(c, hops, direction, cellType, payload);
    OnionSize(c, hops, direction, cellType, payload);
    if SealOnion(c, hops, direction, cellType, payload).Ok? {
      PeelDelivers(c, hops, windows, direction, cellType, payload, now, 0);
    }
  }

  // ----- The stateful ends -----

  /** Owns the hop keys of a route in traversal order and numbers every cell. */
  class CircuitSender {
    const keys: seq<HopKeys>
    const direction: Direction
    var nextSequence: u64

    constructor (keys: seq<HopKeys>, direction: Direction)
      requires RouteError(keys) == None
      ensures this.keys == keys && this.direction == direction && nextSequence == 0
    {
      this.keys, this.direction, nextSequence := keys, direction, 0;
    }

    /** Seals from the last hop outwards; the counter moves exactly when a cell is made. */
    method Seal(c: Crypto, cellType: CellType, payload: Bytes) returns (r: Result<Bytes, OnionError>)
      requires c.Lawful() && RouteError(keys) == None
      modifies this
      ensures r == SealAt(c, keys, direction, old(nextSequence), cellType, payload)
      ensures r.Ok? <==> |payload| <= MaxPayloadForHops(|keys|).value && old(nextSequence) < U64_MAX
      ensures nextSequence == old(nextSequence) + (if r.Ok? then 1 else 0)
    {
      hide SealOnion, SealCompact, FromCompact;
      SealSucceedsExactly(c, keys, direction, nextSequence, cellType, payload);
      var compact := SealLayers(c, keys, direction, nextSequence, cellType, payload);
      if compact.Err? { return Err(compact.error); }
      var cell := FromCompact(compact.value);
      if cell.Err? { return Err(cell.error); }
      if nextSequence == U64_MAX { return Err(OutOfWindow); }
      nextSequence := nextSequence + 1;
      return cell;
    }
  }

  /** A sender for a route, or why there is none. */
  method NewSender(keys: seq<HopKeys>, direction: Direction) returns (r: Result<CircuitSender, OnionError>)
    ensures r.Ok? <==>
            && 1 <= |keys| <= 3
            && forall i, j | 0 <= i < |keys| && 0 <= j < |keys| ::
                 keys[i].circuitId == keys[j].circuitId && keys[i].epoch == keys[j].epoch
                 && keys[i].expiresAt == keys[j].expiresAt
    ensures r.Err? ==> RouteError(keys) == Some(r.error)
    ensures r.Ok? ==>
            fresh(r.value) && r.value.keys == keys && r.value.direction == direction && r.value.nextSequence == 0
  {
    if keys == [] || |keys| > MAX_HOPS { return Err(HopLimit); }
    for i := 0 to |keys|
      invariant forall j | 0 <= j < i :: SameScope(keys[j], keys[0])
    {
      if !SameScope(keys[i], keys[0]) { return Err(WrongScope); }
    }
    var sender := new CircuitSender(keys, direction);
    r := Ok(sender);
  }

  method SealLayers(
    c: Crypto, keys: seq<HopKeys>, direction: Direction, sequence: u64, cellType: CellType, payload: Bytes)
    returns (compact: Result<Bytes, OnionError>)
    requires keys != []
    ensures compact == SealOnion(c, SameSequence(keys, sequence), direction, cellType, payload)
  {
    hide SealCompact;
    ghost var hops := SameSequence(keys, sequence);
    var i := |keys| - 1;
    compact := SealCompact(c, keys[i], direction, sequence, TypeCode(cellType), payload);
    while i > 0
      invariant 0 <= i < |keys|
      invariant SealOnion(c, hops[i..], direction, cellType, payload) == compact
    {
      if compact.Err? {
        InnerErrorSurfaces(c, hops, i, direction, cellType, payload);
        return;
      }
      i := i - 1;
      assert hops[i..][1..] == hops[i + 1..];
      compact := SealCompact(c, keys[i], direction, sequence, 0, compact.value);
    }
    assert hops[0..] == hops;
  }

  lemma {:induction false} InnerErrorSurfaces(
    c: Crypto, hops: seq<Hop>, i: nat, direction: Direction, cellType: CellType, payload: Bytes)
    requires i < |hops| && SealOnion(c, hops[i..], direction, cellType, payload).Err?
    ensures SealOnion(c, hops, direction, cellType, payload) == SealOnion(c, hops[i..], direction, cellType, payload)
    decreases i
  {
    hide SealCompact;
    if i == 0 {
      assert hops[0..] == hops;
    } else {
      assert hops[1..][i - 1..] == hops[i..];
      InnerErrorSurfaces(c, hops[1..], i - 1, direction, cellType, payload);
    }
  }

  /** Opens one layer against a window held in place; only a fully opened layer is recorded. */
  method OpenInPlace(c: Crypto, keys: HopKeys, replay: R.ReplayWindow, ghost accepted: set<nat>, cell: Bytes,
                     expected: Direction, now: u64)
    returns (r: Result<Opened, OnionError>, ghost grown: set<nat>)
    requires IsWireCell(cell) && R.Represents(replay.View(), accepted)
    modifies replay
    ensures (r, replay.View()) == OpenLayer(c, keys, old(replay.View()), cell, expected, now)
    ensures R.Represents(replay.View(), grown)
    ensures var sequence := ParseHeader(cell).value.sequence;
            if r.Ok? then R.Admissible(accepted, sequence) && grown == accepted + {sequence} else grown == accepted
  {
    grown := accepted;
    var header := ParseHeader(cell).value;
    if header.direction != expected || header.circuitId != keys.circuitId || header.epoch != keys.epoch
       || header.expiresAt != keys.expiresAt {
      return Err(WrongScope), accepted;
    }
    if header.expiresAt <= now {
      return Err(Expired), accepted;
    }
    hide R.Check, R.Commit, R.Admissible, R.Represents;
    var verdict := replay.Test(header.sequence, accepted);
    match verdict {
      case OutOfWindow => return Err(OutOfWindow), accepted;
      case Replayed => return Err(Replay), accepted;
      case Fresh =>
    }
    var plaintext := Decrypt(c, keys, cell);
    if plaintext.None? {
      return Err(AuthenticationFailed), accepted;
    }
    r := ReadLayer(plaintext.value);
    if r.Ok? {
      R.CheckDecidesTheSet(replay.View(), accepted, header.sequence);
      replay.Record(header.sequence, accepted);
      grown := accepted + {header.sequence};
    }
  }

  /** One-way endpoint: peels its own layer in one direction. */
  class HopReceiver {
    const keys: HopKeys
    const expected: Direction
    const replay: R.ReplayWindow
    ghost var accepted: set<nat>

    ghost predicate Valid()
      reads this, replay
    {
      R.Represents(replay.View(), accepted)
    }

    constructor (keys: HopKeys, expected: Direction)
      ensures Valid() && accepted == {} && fresh(replay) && replay.View() == R.EMPTY_WINDOW
      ensures this.keys == keys && this.expected == expected
    {
      this.keys, this.expected, accepted := keys, expected, {};
      replay := new R.ReplayWindow();
    }

    method Open(c: Crypto, cell: Bytes, now: u64) returns (r: Result<Opened, OnionError>)
      requires Valid() && IsWireCell(cell)
      modifies this, replay
      ensures Valid()
      ensures (r, replay.View()) == OpenLayer(c, keys, old(replay.View()), cell, expected, now)
      ensures var sequence := ParseHeader(cell).value.sequence;
              if r.Ok? then sequence !in old(accepted) && accepted == old(accepted) + {sequence}
              else accepted == old(accepted)
    {
      r, accepted := OpenInPlace(c, keys, replay, accepted, cell, expected, now);
    }
  }

  /** A relay's two-way state: it removes its incoming layer and adds exactly its own outgoing one. */
  class HopDuplex {
    const keys: HopKeys
    const forwardReplay: R.ReplayWindow
    const reverseReplay: R.ReplayWindow
    ghost var forwardAccepted: set<nat>
    ghost var reverseAccepted: set<nat>
    var nextForward: u64
    var nextReverse: u64

    ghost predicate Valid()
      reads this, forwardReplay, reverseReplay
    {
      && forwardReplay != reverseReplay
      && R.Represents(forwardReplay.View(), forwardAccepted)
      && R.Represents(reverseReplay.View(), reverseAccepted)
    }

    constructor (keys: HopKeys)
      ensures Valid() && forwardAccepted == reverseAccepted == {} && nextForward == nextReverse == 0
      ensures this.keys == keys && fresh(forwardReplay) && fresh(reverseReplay)
    {
      this.keys := keys;
      forwardReplay := new R.ReplayWindow();
      reverseReplay := new R.ReplayWindow();
      forwardAccepted, reverseAccepted, nextForward, nextReverse := {}, {}, 0, 0;
    }

    ghost function Accepted(direction: Direction): set<nat>
      reads this
    {
      if direction == Forward then forwardAccepted else reverseAccepted
    }

    ghost function Window(direction: Direction): R.Window
      reads this, forwardReplay, reverseReplay
    {
      if direction == Forward then forwardReplay.View() else reverseReplay.View()
    }

    function Counter(direction: Direction): u64
      reads this
    {
      if direction == Forward then nextForward else nextReverse
    }

    /** Opening in one direction cannot disturb the other, nor the counters. */
    method Open(c: Crypto, cell: Bytes, direction: Direction, now: u64) returns (r: Result<Opened, OnionError>)
      requires Valid() && IsWireCell(cell)
      modifies this, forwardReplay, reverseReplay
      ensures Valid()
      ensures (r, Window(direction)) == OpenLayer(c, keys, old(Window(direction)), cell, direction, now)
      ensures r.Ok? ==> ParseHeader(cell).value.sequence !in old(Accepted(direction))
      ensures forall other | other != direction ::
                Window(other) == old(Window(other)) && Accepted(other) == old(Accepted(other))
      ensures nextForward == old(nextForward) && nextReverse == old(nextReverse)
    {
      hide OpenLayer, ParseHeader, R.Represents;
      match direction {
        case Forward =>
          r, forwardAccepted := OpenInPlace(c, keys, forwardReplay, forwardAccepted, cell, direction, now);
        case Reverse =>
          r, reverseAccepted := OpenInPlace(c, keys, reverseReplay, reverseAccepted, cell, direction, now);
      }
    }

    /** Seals one layer under this hop's own counter, which moves exactly when a cell is made. */
    method AddLayer(c: Crypto, direction: Direction, layerType: byte, payload: Bytes)
      returns (r: Result<Bytes, OnionError>)
      requires Valid()
      modifies this
      ensures Valid() && forwardAccepted == old(forwardAccepted) && reverseAccepted == old(reverseAccepted)
      ensures r == SealLayer(c, keys, direction, old(Counter(direction)), layerType, payload)
      ensures Counter(direction) == old(Counter(direction)) + (if r.Ok? then 1 else 0)
      ensures forall other | other != direction :: Counter(other) == old(Counter(other))
    {
      hide SealCompact, FromCompact, R.Represents;
      var sequence := Counter(direction);
      var compact := SealCompact(c, keys, direction, sequence, layerType, payload);
      if compact.Err? { return Err(compact.error); }
      var cell := FromCompact(compact.value);
      if cell.Err? { return Err(cell.error); }
      if sequence == U64_MAX { return Err(OutOfWindow); }
      match direction {
        case Forward => nextForward := sequence + 1;
        case Reverse => nextReverse := sequence + 1;
      }
      return cell;
    }

    method SealTerminal(c: Crypto, direction: Direction, cellType: CellType, payload: Bytes)
      returns (r: Result<Bytes, OnionError>)
      requires Valid()
      modifies this
      ensures Valid()
      ensures r == ReverseCell(c, [Hop(keys, old(Counter(direction)))], direction, cellType, payload)
      ensures Counter(direction) == old(Counter(direction)) + (if r.Ok? then 1 else 0)
    {
      r := AddLayer(c, direction, TypeCode(cellType), payload);
    }

    /** Wrapping the cell of the hops behind this one gives the cell of the longer path. */
    method Wrap(
      c: Crypto, direction: Direction, inner: Bytes, ghost behind: seq<Hop>, ghost cellType: CellType,
      ghost payload: Bytes)
      returns (r: Result<Bytes, OnionError>)
      requires Valid() && IsWireCell(inner)
      modifies this
      ensures Valid()
      ensures behind != [] && ReverseCell(c, behind, direction, cellType, payload) == Ok(inner) ==>
                r == ReverseCell(c, [Hop(keys, old(Counter(direction)))] + behind, direction, cellType, payload)
      ensures Counter(direction) == old(Counter(direction)) + (if r.Ok? then 1 else 0)
    {
      hide SealLayer, ParseHeader, R.Represents;
      ghost var longer := [Hop(keys, Counter(direction))] + behind;
      assert longer[1..] == behind;
      r := AddLayer(c, direction, 0, Compact(inner));
    }
  }
}
