/**
 * A route under any traffic: cells lost, repeated and reordered on every link, cells that arrive too
 * late, and cells nobody sealed. Every hop's window does what a receiver that remembers every
 * accepted sequence would do.
 */
module OnionTraffic {
  import opened Common
  import opened OnionSetup
  import opened OnionCells
  import opened OnionRoutes
  import R = Replay

  datatype Message = Message(cellType: CellType, payload: Bytes)

  /** A sealed message, with the sequence each hop's layer is under. */
  datatype Onion = Onion(hops: seq<Hop>, message: Message)

  ghost predicate Sealed(c: Crypto, direction: Direction, o: Onion) {
    o.hops != [] && SealOnion(c, o.hops, direction, o.message.cellType, o.message.payload).Ok?
  }

  lemma SealedInside(c: Crypto, direction: Direction, o: Onion, from: nat)
    requires c.Lawful() && Sealed(c, direction, o) && from < |o.hops|
    ensures var compact := SealOnion(c, o.hops[from..], direction, o.message.cellType, o.message.payload);
            compact.Ok? && FromCompact(compact.value).Ok?
  {
    hide SealCompact, FromCompact;
    var compact := SealOnion(c, o.hops[from..], direction, o.message.cellType, o.message.payload);
    if compact.Err? {
      InnerErrorSurfaces(c, o.hops, from, direction, o.message.cellType, o.message.payload);
    }
    OnionSize(c, o.hops[from..], direction, o.message.cellType, o.message.payload);
  }

  /** The cell as it travels on the link before hop `from`. */
  ghost function CellBefore(c: Crypto, direction: Direction, o: Onion, from: nat): (cell: Bytes)
    requires c.Lawful() && Sealed(c, direction, o) && from < |o.hops|
    ensures IsWireCell(cell)
  {
    SealedInside(c, direction, o, from);
    FromCompact(SealOnion(c, o.hops[from..], direction, o.message.cellType, o.message.payload).value).value
  }

  /** What the hop a sealed cell is for makes of it, at any time and with any window. */
  lemma OnionLayer(c: Crypto, direction: Direction, o: Onion, from: nat, window: R.Window, now: u64)
    requires c.Lawful() && Sealed(c, direction, o) && from < |o.hops|
    ensures var hop := o.hops[from];
            var result := OpenLayer(c, hop.keys, window, CellBefore(c, direction, o, from), direction, now);
            if hop.keys.expiresAt <= now then result == (Err(Expired), window)
            else
              match R.Check(window, hop.sequence)
              case OutOfWindow => result == (Err(OutOfWindow), window)
              case Replayed => result == (Err(Replay), window)
              case Fresh =>
                && R.Committable(window, hop.sequence)
                && result == (Ok(if from + 1 == |o.hops| then Terminal(o.message.cellType, o.message.payload)
                                 else Transit(CellBefore(c, direction, o, from + 1))),
                              R.Commit(window, hop.sequence))
  {
    hide OpenLayer, SealCompact, FromCompact, ParseHeader, R.Check, R.Commit, R.Committable, LayerMeaning;
    var hop, hops, m := o.hops[from], o.hops[from..], o.message;
    SealedInside(c, direction, o, from);
    OnionSize(c, hops, direction, m.cellType, m.payload);
    if from + 1 == |o.hops| {
      LastLayer(c, hop, window, direction, m, now);
    } else {
      assert hops[1..] == o.hops[from + 1..];
      OnionSize(c, hops[1..], direction, m.cellType, m.payload);
      SealedInside(c, direction, o, from + 1);
      var inner := SealOnion(c, hops[1..], direction, m.cellType, m.payload).value;
      TransitLayer(c, hop, window, direction, inner, now);
    }
  }

  lemma LastLayer(c: Crypto, hop: Hop, window: R.Window, direction: Direction, m: Message, now: u64)
    requires c.Lawful() && |m.payload| <= MAX_LAYER_DATA
    ensures var compact := SealCompact(c, hop.keys, direction, hop.sequence, TypeCode(m.cellType), m.payload);
            && compact.Ok? && FromCompact(compact.value).Ok?
            && var result := OpenLayer(c, hop.keys, window, FromCompact(compact.value).value, direction, now);
               if hop.keys.expiresAt <= now then result == (Err(Expired), window)
               else
                 match R.Check(window, hop.sequence)
                 case OutOfWindow => result == (Err(OutOfWindow), window)
                 case Replayed => result == (Err(Replay), window)
                 case Fresh =>
                   && R.Committable(window, hop.sequence)
                   && result == (Ok(Terminal(m.cellType, m.payload)), R.Commit(window, hop.sequence))
  {
    hide OpenLayer, SealCompact, FromCompact, ParseHeader, R.Check, R.Commit, R.Committable;
    if hop.keys.expiresAt <= now {
      ForeignCellIsRefused(c, hop.keys, direction, hop.sequence, TypeCode(m.cellType), m.payload,
                           hop.keys, direction, window, now);
    } else {
      OpenUndoesSeal(c, hop.keys, window, direction, hop.sequence, TypeCode(m.cellType), m.payload, now);
      TypeRoundTrip(m.cellType);
    }
  }

  lemma TransitLayer(c: Crypto, hop: Hop, window: R.Window, direction: Direction, inner: Bytes, now: u64)
    requires c.Lawful() && |inner| <= MAX_LAYER_DATA && FromCompact(inner).Ok?
    ensures var compact := SealCompact(c, hop.keys, direction, hop.sequence, 0, inner);
            && compact.Ok? && FromCompact(compact.value).Ok?
            && var result := OpenLayer(c, hop.keys, window, FromCompact(compact.value).value, direction, now);
               if hop.keys.expiresAt <= now then result == (Err(Expired), window)
               else
                 match R.Check(window, hop.sequence)
                 case OutOfWindow => result == (Err(OutOfWindow), window)
                 case Replayed => result == (Err(Replay), window)
                 case Fresh =>
                   && R.Committable(window, hop.sequence)
                   && result == (Ok(Transit(FromCompact(inner).value)), R.Commit(window, hop.sequence))
  {
    hide OpenLayer, SealCompact, FromCompact, ParseHeader, R.Check, R.Commit, R.Committable;
    if hop.keys.expiresAt <= now {
      ForeignCellIsRefused(c, hop.keys, direction, hop.sequence, 0, inner, hop.keys, direction, window, now);
    } else {
      OpenUndoesSeal(c, hop.keys, window, direction, hop.sequence, 0, inner, now);
    }
  }

  // ----- The plain reading: a set of accepted sequences a hop -----

  datatype Fate = Arrives | Refused(hop: nat, error: OnionError) | Unopened(hop: nat)

  /** What a receiver that remembers every accepted sequence says of one it does not admit. */
  ghost function Refusal(accepted: set<nat>, sequence: nat): OnionError {
    if sequence in accepted && forall a | a in accepted :: a < sequence + R.REPLAY_WINDOW_BITS then Replay
    else OutOfWindow
  }

  /** A cell handed from hop to hop, each asking only its own set. */
  ghost function Walk(hops: seq<Hop>, sets: seq<set<nat>>, now: u64, at: nat): (r: (Fate, seq<set<nat>>))
    requires |hops| == |sets|
    ensures |r.1| == |sets|
    decreases |hops|
  {
    if hops == [] then (Arrives, [])
    else if hops[0].keys.expiresAt <= now then (Refused(at, Expired), sets)
    else if R.Admissible(sets[0], hops[0].sequence) then
      var (fate, rest) := Walk(hops[1..], sets[1..], now, at + 1);
      (fate, [sets[0] + {hops[0].sequence}] + rest)
    else (Refused(at, Refusal(sets[0], hops[0].sequence)), sets)
  }

  ghost predicate AllRepresent(windows: seq<R.Window>, sets: seq<set<nat>>) {
    |windows| == |sets| && forall i | 0 <= i < |windows| :: R.Represents(windows[i], sets[i])
  }

  /** What an observer of hops up to `end` sees of a fate. */
  ghost predicate Shows(c: Crypto, direction: Direction, o: Onion, end: nat, fate: Fate, d: Delivery)
    requires c.Lawful() && Sealed(c, direction, o) && end <= |o.hops|
  {
    match fate
    case Refused(hop, error) => d == Dropped(hop, error)
    case Unopened(hop) => d.Dropped? && d.hop == hop
    case Arrives =>
      if end == |o.hops| then d == Delivered(end - 1, o.message.cellType, o.message.payload)
      else d == LeftPath(CellBefore(c, direction, o, end))
  }

  /** The window's verdict is the set's, with the same error. */
  lemma VerdictOfSet(window: R.Window, accepted: set<nat>, sequence: u64)
    requires R.Represents(window, accepted)
    ensures R.Check(window, sequence) == R.Fresh <==> R.Admissible(accepted, sequence)
    ensures R.Check(window, sequence) == R.Replayed ==> Refusal(accepted, sequence) == Replay
    ensures R.Check(window, sequence) == R.OutOfWindow ==> Refusal(accepted, sequence) == OutOfWindow
  {
    R.CheckDecidesTheSet(window, accepted, sequence);
    hide R.Check, R.Digits;
  }

  /** Hop by hop, the windows do what the sets do, and what comes out is what the sets say. */
  lemma {:induction false} PeelRefinesWalk(c: Crypto, direction: Direction, o: Onion, from: nat, end: nat,
                                           windows: seq<R.Window>, sets: seq<set<nat>>, now: u64)
    requires c.Lawful() && Sealed(c, direction, o) && from < end <= |o.hops|
    requires |windows| == |sets| == end - from && AllRepresent(windows, sets)
    ensures var walked := Walk(o.hops[from..end], sets, now, from);
            var cell := CellBefore(c, direction, o, from);
            var peeled := Peel(c, KeysOf(o.hops)[from..end], windows, cell, direction, now, from);
            Shows(c, direction, o, end, walked.0, peeled.0) && AllRepresent(peeled.1, walked.1)
    decreases end - from
  {
    hide OpenLayer, SealOnion, ParseHeader, R.Check, R.Commit, R.Committable, R.Represents, R.Admissible, Peel, Refusal;
    var hop, keys, cell := o.hops[from], KeysOf(o.hops)[from..end], CellBefore(c, direction, o, from);
    var segment := o.hops[from..end];
    assert segment[0] == hop && keys[0] == hop.keys;
    OnionLayer(c, direction, o, from, windows[0], now);
    VerdictOfSet(windows[0], sets[0], hop.sequence);
    if hop.keys.expiresAt <= now {
      PeelDropped(c, keys, windows, cell, direction, now, from, Expired);
    } else if R.Check(windows[0], hop.sequence) != R.Fresh {
      PeelDropped(c, keys, windows, cell, direction, now, from, Refusal(sets[0], hop.sequence));
    } else {
      R.CommitAddsToTheSet(windows[0], sets[0], hop.sequence);
      var committed := R.Commit(windows[0], hop.sequence);
      assert segment[1..] == o.hops[from + 1..end] && keys[1..] == KeysOf(o.hops)[from + 1..end];
      if from + 1 == |o.hops| {
        PeelTerminal(c, keys, windows, cell, direction, now, from, o.message.cellType, o.message.payload, committed);
        assert Walk(segment[1..], sets[1..], now, from + 1) == (Arrives, []);
      } else {
        var inner := CellBefore(c, direction, o, from + 1);
        PeelTransit(c, keys, windows, cell, direction, now, from, inner, committed);
        if end == from + 1 {
          LeavesPath(c, inner, direction, now, end);
          assert Walk(segment[1..], sets[1..], now, from + 1) == (Arrives, []);
        } else {
          PeelRefinesWalk(c, direction, o, from + 1, end, windows[1..], sets[1..], now);
        }
      }
    }
  }

  lemma LeavesPath(c: Crypto, cell: Bytes, direction: Direction, now: u64, at: nat)
    requires IsWireCell(cell)
    ensures Peel(c, [], [], cell, direction, now, at) == (LeftPath(cell), [])
  {
  }

  // ----- Runs -----

  /**
   * A sealed cell handed on from one link over some hops and then lost or delivered; or a cell that no
   * key of the hop it reaches has sealed.
   */
  datatype Event =
    | Travels(index: nat, from: nat, end: nat, now: u64)
    | Intrudes(cell: Bytes, at: nat, now: u64)

  ghost predicate Route(c: Crypto, keys: seq<HopKeys>, direction: Direction, onions: seq<Onion>) {
    c.Lawful() && forall i | 0 <= i < |onions| :: Sealed(c, direction, onions[i]) && KeysOf(onions[i].hops) == keys
  }

  ghost predicate Possible(c: Crypto, keys: seq<HopKeys>, onions: seq<Onion>, e: Event) {
    match e
    case Travels(index, from, end, _) => index < |onions| && from < end <= |keys|
    case Intrudes(cell, at, _) => at < |keys| && IsWireCell(cell) && Decrypt(c, keys[at], cell) == None
  }

  ghost predicate AllPossible(c: Crypto, keys: seq<HopKeys>, onions: seq<Onion>, events: seq<Event>) {
    forall i | 0 <= i < |events| :: Possible(c, keys, onions, events[i])
  }

  ghost function Handle(
    c: Crypto, keys: seq<HopKeys>, direction: Direction, onions: seq<Onion>, windows: seq<R.Window>, e: Event)
    : (r: (Delivery, seq<R.Window>))
    requires Route(c, keys, direction, onions) && Possible(c, keys, onions, e) && |windows| == |keys|
    ensures |r.1| == |keys|
  {
    match e
    case Travels(index, from, end, now) =>
      var cell := CellBefore(c, direction, onions[index], from);
      var (delivery, after) := Peel(c, keys[from..end], windows[from..end], cell, direction, now, from);
      (delivery, windows[..from] + after + windows[end..])
    case Intrudes(cell, at, now) =>
      var (delivery, after) := Peel(c, keys[at..], windows[at..], cell, direction, now, at);
      (delivery, windows[..at] + after)
  }

  predicate Fits(onions: seq<Onion>, hops: nat, e: Event) {
    e.Travels? ==> e.index < |onions| && e.from < e.end <= hops == |onions[e.index].hops|
  }

  ghost function Judge(onions: seq<Onion>, sets: seq<set<nat>>, e: Event): (r: (Fate, seq<set<nat>>))
    requires Fits(onions, |sets|, e)
    ensures |r.1| == |sets|
  {
    match e
    case Travels(index, from, end, now) =>
      var (fate, after) := Walk(onions[index].hops[from..end], sets[from..end], now, from);
      (fate, sets[..from] + after + sets[end..])
    case Intrudes(_, at, _) => (Unopened(at), sets)
  }

  /** What the observer of one event sees is its fate, with the cell or message it names. */
  ghost predicate Matches(
    c: Crypto, keys: seq<HopKeys>, direction: Direction, onions: seq<Onion>, e: Event, fate: Fate, d: Delivery)
    requires Route(c, keys, direction, onions) && Possible(c, keys, onions, e)
  {
    match e
    case Travels(index, _, end, _) => Shows(c, direction, onions[index], end, fate, d)
    case Intrudes(_, at, _) => fate == Unopened(at) && d.Dropped? && d.hop == at
  }

  lemma EventRefines(c: Crypto, keys: seq<HopKeys>, direction: Direction, onions: seq<Onion>,
                     windows: seq<R.Window>, sets: seq<set<nat>>, e: Event)
    requires Route(c, keys, direction, onions) && Possible(c, keys, onions, e)
    requires |windows| == |sets| == |keys| && AllRepresent(windows, sets)
    ensures var handled := Handle(c, keys, direction, onions, windows, e);
            var judged := Judge(onions, sets, e);
            Matches(c, keys, direction, onions, e, judged.0, handled.0) && AllRepresent(handled.1, judged.1)
  {
    hide Peel, Walk, R.Represents, Shows, Decrypt, ParseHeader;
    match e {
      case Travels(index, from, end, now) =>
        assert AllRepresent(windows[from..end], sets[from..end]);
        PeelRefinesWalk(c, direction, onions[index], from, end, windows[from..end], sets[from..end], now);
        var cell := CellBefore(c, direction, onions[index], from);
        SplicedRepresent(windows, sets, from, end,
                         Peel(c, keys[from..end], windows[from..end], cell, direction, now, from).1,
                         Walk(onions[index].hops[from..end], sets[from..end], now, from).1);
        hide AllRepresent;
      case Intrudes(cell, at, now) =>
        IntruderIsDropped(c, keys[at..], windows[at..], cell, direction, now, at);
        assert windows[..at] + windows[at..] == windows;
    }
  }

  lemma SplicedRepresent(windows: seq<R.Window>, sets: seq<set<nat>>, from: nat, end: nat,
                         peeled: seq<R.Window>, walked: seq<set<nat>>)
    requires AllRepresent(windows, sets) && from <= end <= |windows|
    requires |peeled| == |walked| == end - from && AllRepresent(peeled, walked)
    ensures AllRepresent(windows[..from] + peeled + windows[end..], sets[..from] + walked + sets[end..])
  {
    hide R.Represents;
  }

  lemma IntruderIsDropped(
    c: Crypto, keys: seq<HopKeys>, windows: seq<R.Window>, cell: Bytes, direction: Direction, now: u64, at: nat)
    requires |keys| == |windows| > 0 && IsWireCell(cell) && Decrypt(c, keys[0], cell) == None
    ensures var peeled := Peel(c, keys, windows, cell, direction, now, at);
            peeled.0.Dropped? && peeled.0.hop == at && peeled.1 == windows
  {
    hide Peel, ParseHeader, Decrypt, R.Check;
    var layer := OpenLayer(c, keys[0], windows[0], cell, direction, now);
    assert layer.0.Err? && layer.1 == windows[0];
    hide OpenLayer;
    PeelDropped(c, keys, windows, cell, direction, now, at, layer.0.error);
  }

  ghost function WindowsAfter(
    c: Crypto, keys: seq<HopKeys>, direction: Direction, onions: seq<Onion>, events: seq<Event>)
    : (windows: seq<R.Window>)
    requires Route(c, keys, direction, onions) && AllPossible(c, keys, onions, events)
    ensures |windows| == |keys|
    decreases |events|
  {
    if events == [] then seq(|keys|, _ => R.EMPTY_WINDOW)
    else
      var n := |events| - 1;
      Handle(c, keys, direction, onions, WindowsAfter(c, keys, direction, onions, events[..n]), events[n]).1
  }

  ghost function SetsAfter(c: Crypto, keys: seq<HopKeys>, direction: Direction, onions: seq<Onion>, events: seq<Event>)
    : (sets: seq<set<nat>>)
    requires Route(c, keys, direction, onions) && AllPossible(c, keys, onions, events)
    ensures |sets| == |keys|
    decreases |events|
  {
    if events == [] then seq(|keys|, _ => {})
    else
      var n := |events| - 1;
      Judge(onions, SetsAfter(c, keys, direction, onions, events[..n]), events[n]).1
  }

  /** On every run each hop's window represents the set of sequences a plain receiver there has accepted. */
  lemma {:induction false} TrafficRefinesSets(
    c: Crypto, keys: seq<HopKeys>, direction: Direction, onions: seq<Onion>, events: seq<Event>)
    requires Route(c, keys, direction, onions) && AllPossible(c, keys, onions, events)
    ensures AllRepresent(
              WindowsAfter(c, keys, direction, onions, events), SetsAfter(c, keys, direction, onions, events))
    decreases |events|
  {
    if events == [] {
      assert R.Represents(R.EMPTY_WINDOW, {});
    } else {
      var n := |events| - 1;
      TrafficRefinesSets(c, keys, direction, onions, events[..n]);
      EventRefines(c, keys, direction, onions, WindowsAfter(c, keys, direction, onions, events[..n]),
                   SetsAfter(c, keys, direction, onions, events[..n]), events[n]);
      hide Route, Handle, Judge, AllRepresent, Matches;
    }
  }

  /**
   * Whatever arrives on whichever link, lost, repeated, reordered, late or forged: each sealed cell is
   * delivered with its exact message, or handed on, when every hop's plain set admits its layer in
   * time, and is otherwise dropped at the first hop that does not, with the matching error.
   */
  lemma TrafficDelivers(
    c: Crypto, keys: seq<HopKeys>, direction: Direction, onions: seq<Onion>, events: seq<Event>, k: nat)
    requires Route(c, keys, direction, onions) && AllPossible(c, keys, onions, events) && k < |events|
    ensures var windows := WindowsAfter(c, keys, direction, onions, events[..k]);
            var delivery := Handle(c, keys, direction, onions, windows, events[k]).0;
            var fate := Judge(onions, SetsAfter(c, keys, direction, onions, events[..k]), events[k]).0;
            Matches(c, keys, direction, onions, events[k], fate, delivery)
  {
    TrafficRefinesSets(c, keys, direction, onions, events[..k]);
    EventRefines(c, keys, direction, onions, WindowsAfter(c, keys, direction, onions, events[..k]),
                 SetsAfter(c, keys, direction, onions, events[..k]), events[k]);
    hide Handle, Judge, AllRepresent, Matches, WindowsAfter, SetsAfter;
  }

  // ----- Each message at most once -----

  lemma {:induction false} WalkGrows(hops: seq<Hop>, sets: seq<set<nat>>, now: u64, at: nat)
    requires |hops| == |sets|
    ensures var (fate, after) := Walk(hops, sets, now, at);
            && (forall i | 0 <= i < |sets| :: sets[i] <= after[i])
            && (fate.Arrives? ==>
                forall i | 0 <= i < |hops| :: hops[i].sequence !in sets[i] && hops[i].sequence in after[i])
    decreases |hops|
  {
    if hops != [] && hops[0].keys.expiresAt > now && R.Admissible(sets[0], hops[0].sequence) {
      WalkGrows(hops[1..], sets[1..], now, at + 1);
      var (fate, rest) := Walk(hops[1..], sets[1..], now, at + 1);
      var after := [sets[0] + {hops[0].sequence}] + rest;
      assert forall i | 1 <= i < |hops| ::
          hops[i] == hops[1..][i - 1] && sets[i] == sets[1..][i - 1] && after[i] == rest[i - 1];
    }
  }

  lemma {:induction false} SetsGrow(c: Crypto, keys: seq<HopKeys>, direction: Direction, onions: seq<Onion>,
                                    events: seq<Event>, i: nat, j: nat, hop: nat)
    requires Route(c, keys, direction, onions) && AllPossible(c, keys, onions, events)
    requires i <= j <= |events| && hop < |keys|
    ensures SetsAfter(c, keys, direction, onions, events[..i])[hop]
         <= SetsAfter(c, keys, direction, onions, events[..j])[hop]
    decreases j
  {
    hide Route, Judge, SetsAfter, Fits, Possible;
    if i < j {
      SetsStep(c, keys, direction, onions, events, j - 1);
      SetsGrow(c, keys, direction, onions, events, i, j - 1, hop);
      JudgeGrows(onions, SetsAfter(c, keys, direction, onions, events[..j - 1]), events[j - 1], hop);
    }
  }

  lemma SetsStep(c: Crypto, keys: seq<HopKeys>, direction: Direction, onions: seq<Onion>, events: seq<Event>, k: nat)
    requires Route(c, keys, direction, onions) && AllPossible(c, keys, onions, events) && k < |events|
    ensures Fits(onions, |keys|, events[k])
    ensures SetsAfter(c, keys, direction, onions, events[..k + 1])
         == Judge(onions, SetsAfter(c, keys, direction, onions, events[..k]), events[k]).1
  {
    assert events[..k + 1][..k] == events[..k];
    hide Judge, Sealed;
  }

  lemma JudgeGrows(onions: seq<Onion>, sets: seq<set<nat>>, e: Event, hop: nat)
    requires Fits(onions, |sets|, e) && hop < |sets|
    ensures var (fate, after) := Judge(onions, sets, e);
            && sets[hop] <= after[hop]
            && (e.Travels? && fate.Arrives? && e.from <= hop < e.end ==>
                  onions[e.index].hops[hop].sequence !in sets[hop] && onions[e.index].hops[hop].sequence in after[hop])
  {
    hide Walk;
    if e.Travels? {
      WalkGrows(onions[e.index].hops[e.from..e.end], sets[e.from..e.end], e.now, e.from);
      if e.from <= hop < e.end {
        assert onions[e.index].hops[e.from..e.end][hop - e.from] == onions[e.index].hops[hop];
      }
    }
  }

  ghost predicate DeliversAt(
    c: Crypto, keys: seq<HopKeys>, direction: Direction, onions: seq<Onion>, events: seq<Event>, k: nat)
    requires Route(c, keys, direction, onions) && AllPossible(c, keys, onions, events) && k < |events|
  {
    && events[k].Travels? && events[k].end == |keys|
    && Handle(c, keys, direction, onions, WindowsAfter(c, keys, direction, onions, events[..k]), events[k]).0.Delivered?
  }

  /**
   * On every run, two deliveries are of onions with different sequences at the last hop: with one
   * counter there, no message is delivered twice, from whichever link it is replayed.
   */
  lemma DeliveredOnce(
    c: Crypto, keys: seq<HopKeys>, direction: Direction, onions: seq<Onion>, events: seq<Event>, i: nat, j: nat)
    requires Route(c, keys, direction, onions) && AllPossible(c, keys, onions, events) && i < j < |events|
    requires DeliversAt(c, keys, direction, onions, events, i) && DeliversAt(c, keys, direction, onions, events, j)
    ensures var last := |keys| - 1;
            onions[events[i].index].hops[last].sequence != onions[events[j].index].hops[last].sequence
  {
    var last := |keys| - 1;
    DeliveryGrows(c, keys, direction, onions, events, i);
    DeliveryGrows(c, keys, direction, onions, events, j);
    SetsGrow(c, keys, direction, onions, events, i + 1, j, last);
    hide DeliversAt, SetsAfter, Route;
  }

  /** A delivery's sequence at the last hop was new there, and is then remembered. */
  lemma DeliveryGrows(
    c: Crypto, keys: seq<HopKeys>, direction: Direction, onions: seq<Onion>, events: seq<Event>, k: nat)
    requires Route(c, keys, direction, onions) && AllPossible(c, keys, onions, events) && k < |events|
    requires DeliversAt(c, keys, direction, onions, events, k)
    ensures events[k].Travels? && events[k].index < |onions| && keys != []
    ensures var last := |keys| - 1; var o := onions[events[k].index];
            && |o.hops| == |keys|
            && o.hops[last].sequence !in SetsAfter(c, keys, direction, onions, events[..k])[last]
            && o.hops[last].sequence in SetsAfter(c, keys, direction, onions, events[..k + 1])[last]
  {
    var last := |keys| - 1;
    assert Possible(c, keys, onions, events[k]);
    SetsStep(c, keys, direction, onions, events, k);
    TrafficDelivers(c, keys, direction, onions, events, k);
    JudgeGrows(onions, SetsAfter(c, keys, direction, onions, events[..k]), events[k], last);
    hide Judge, Handle, WindowsAfter, SetsAfter, Sealed;
  }

  // ----- The two directions -----

  /** The cells of a sender are onions under one sequence each. */
  lemma ForwardIsOnion(c: Crypto, keys: seq<HopKeys>, direction: Direction, sequence: u64, m: Message)
    requires c.Lawful() && keys != [] && SealAt(c, keys, direction, sequence, m.cellType, m.payload).Ok?
    ensures var o := Onion(SameSequence(keys, sequence), m);
            && Sealed(c, direction, o) && KeysOf(o.hops) == keys
            && CellBefore(c, direction, o, 0) == SealAt(c, keys, direction, sequence, m.cellType, m.payload).value
  {
    hide SealOnion, FromCompact;
    var hops := SameSequence(keys, sequence);
    assert hops[0..] == hops;
  }

  /** So are the answers sealed by the last relay and wrapped by the others, each under its own counter. */
  lemma AnswerIsOnion(c: Crypto, hops: seq<Hop>, direction: Direction, m: Message)
    requires c.Lawful() && hops != [] && ReverseCell(c, hops, direction, m.cellType, m.payload).Ok?
    requires forall i | 0 <= i < |hops| :: hops[i].sequence < U64_MAX
    ensures var o := Onion(hops, m);
            && Sealed(c, direction, o)
            && CellBefore(c, direction, o, 0) == ReverseCell(c, hops, direction, m.cellType, m.payload).value
  {
    ReverseIsOnion(c, hops, direction, m.cellType, m.payload);
    hide SealOnion, FromCompact, ReverseCell;
    assert hops[0..] == hops;
  }

  lemma NextIsAdmissible(n: nat)
    ensures R.Admissible(Below(n), n) && Below(n) + {n} == Below(n + 1)
  {
    if n > 0 {
      assert n - 1 in Below(n);
      assert R.IsHighest(n - 1, Below(n));
    }
  }

  lemma {:induction false} NextWalks(keys: seq<HopKeys>, n: u64, now: u64, at: nat)
    requires forall h | 0 <= h < |keys| :: now < keys[h].expiresAt
    ensures Walk(SameSequence(keys, n), seq(|keys|, _ => Below(n)), now, at)
            == (Arrives, seq(|keys|, _ => Below(n + 1)))
    decreases |keys|
  {
    var hops, sets := SameSequence(keys, n), seq(|keys|, _ => Below(n));
    NextIsAdmissible(n);
    hide R.Admissible, Below;
    if keys != [] {
      NextWalks(keys[1..], n, now, at + 1);
      assert hops[1..] == SameSequence(keys[1..], n) && sets[1..] == seq(|keys| - 1, _ => Below(n));
      assert [Below(n + 1)] + seq(|keys| - 1, _ => Below(n + 1)) == seq(|keys|, _ => Below(n + 1));
    } else {
      assert hops == [] && sets == [] && seq(|keys|, _ => Below(n + 1)) == [];
    }
  }

  /** Cell after cell of one sender, each over the whole route and before every key expires. */
  predicate InOrder(keys: seq<HopKeys>, onions: seq<Onion>, events: seq<Event>) {
    && |events| == |onions| <= U64_MAX
    && (forall i | 0 <= i < |onions| :: onions[i].hops == SameSequence(keys, i))
    && (forall i | 0 <= i < |events| ::
          events[i].Travels? && events[i].index == i && events[i].from == 0 && events[i].end == |keys|)
    && (forall i, h | 0 <= i < |events| && 0 <= h < |keys| :: events[i].now < keys[h].expiresAt)
  }

  lemma {:induction false} InOrderSets(c: Crypto, keys: seq<HopKeys>, direction: Direction, onions: seq<Onion>,
                                       events: seq<Event>, k: nat)
    requires Route(c, keys, direction, onions) && AllPossible(c, keys, onions, events)
    requires InOrder(keys, onions, events) && k <= |events|
    ensures SetsAfter(c, keys, direction, onions, events[..k]) == seq(|keys|, _ => Below(k))
    ensures k < |events| ==> Fits(onions, |keys|, events[k])
    ensures k < |events| ==>
              Judge(onions, seq(|keys|, _ => Below(k)), events[k]) == (Arrives, seq(|keys|, _ => Below(k + 1)))
    decreases k
  {
    hide Route, Walk, Sealed;
    if k > 0 {
      InOrderSets(c, keys, direction, onions, events, k - 1);
      SetsStep(c, keys, direction, onions, events, k - 1);
    } else {
      assert events[..0] == [] && Below(0) == {};
    }
    if k < |events| {
      SetsStep(c, keys, direction, onions, events, k);
      NextWalks(keys, k, events[k].now, 0);
      var hops, sets := SameSequence(keys, k), seq(|keys|, _ => Below(k));
      assert hops[0..|keys|] == hops && sets[0..|keys|] == sets && sets[..0] == [] && sets[|keys|..] == [];
      assert [] + seq(|keys|, _ => Below(k + 1)) + [] == seq(|keys|, _ => Below(k + 1));
    }
  }

  /** A stream that arrives in order and in time is delivered whole, each message exactly. */
  lemma InOrderDelivers(
    c: Crypto, keys: seq<HopKeys>, direction: Direction, onions: seq<Onion>, events: seq<Event>, k: nat)
    requires Route(c, keys, direction, onions) && AllPossible(c, keys, onions, events)
    requires InOrder(keys, onions, events) && k < |events|
    ensures Handle(c, keys, direction, onions, WindowsAfter(c, keys, direction, onions, events[..k]), events[k]).0
         == Delivered(|keys| - 1, onions[k].message.cellType, onions[k].message.payload)
  {
    InOrderSets(c, keys, direction, onions, events, k);
    TrafficDelivers(c, keys, direction, onions, events, k);
    hide Judge, Handle, WindowsAfter, SetsAfter, Sealed;
  }
}
