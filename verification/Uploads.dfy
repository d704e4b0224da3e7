/**
 * Chunked content upload: the receiver's bounded sessions and the sender's loop. Everything the
 * receiver handles for other (signer, content) keys may come in between.
 */
module Uploads {
  import opened Common
  import opened Protocol
  import opened Slots
  import MapSums

  const CONTENT_CHUNK_SIZE: nat := 64 * 1024
  const MAX_CONTENT_SIZE: nat := 512 * 1024 * 1024
  const MAX_ACTIVE_UPLOADS: nat := 4
  const MAX_IN_FLIGHT_UPLOAD_BYTES: nat := 512 * 1024 * 1024

  type Hash = Bytes -> ContentId

  datatype Key = Key(signer: NodeId, id: ContentId)

  datatype Session = Session(totalSize: u64, chunkSize: u32, chunks: seq<Slot>)

  /** Open sessions and the content store. */
  datatype State = State(uploads: map<Key, Session>, store: map<ContentId, Bytes>)

  datatype Message =
    | Content(id: ContentId, bytes: Bytes)
    | Start(id: ContentId, totalSize: u64, chunkSize: u32)
    | Piece(id: ContentId, index: u32, bytes: Bytes, chunkHash: ContentId)
    | Finish(id: ContentId)

  datatype Envelope = Envelope(signer: NodeId, message: Message)

  datatype Reply = Has(id: ContentId) | Refused

  function KeyOf(e: Envelope): Key {
    Key(e.signer, e.message.id)
  }

  /** The store keeps what it has: an existing object is checked against its id, not replaced. */
  function Put(h: Hash, store: map<ContentId, Bytes>, bytes: Bytes): map<ContentId, Bytes> {
    if h(bytes) in store then store else store[h(bytes) := bytes]
  }

  function Sizes(uploads: map<Key, Session>): map<Key, nat> {
    map k | k in uploads :: uploads[k].totalSize
  }

  /** Bytes promised to the sessions other than `key`. */
  ghost function Reserved(uploads: map<Key, Session>, key: Key): nat {
    MapSums.Sum(Sizes(uploads) - {key})
  }

  ghost predicate Admits(uploads: map<Key, Session>, key: Key, totalSize: u64, chunkSize: u32) {
    && totalSize <= MAX_CONTENT_SIZE
    && chunkSize == CONTENT_CHUNK_SIZE
    && (key in uploads || |uploads| < MAX_ACTIVE_UPLOADS)
    && Reserved(uploads, key) + totalSize <= MAX_IN_FLIGHT_UPLOAD_BYTES
  }

  predicate FitsSession(h: Hash, session: Session, m: Message)
    requires m.Piece?
  {
    h(m.bytes) == m.chunkHash && |m.bytes| <= session.chunkSize && m.index < |session.chunks|
  }

  ghost function Handle(h: Hash, s: State, e: Envelope): (State, Reply) {
    var key := KeyOf(e);
    match e.message
    case Content(id, bytes) =>
      if h(bytes) == id then (s.(store := Put(h, s.store, bytes)), Has(id)) else (s, Refused)
    case Start(id, totalSize, chunkSize) =>
      if Admits(s.uploads, key, totalSize, chunkSize) then
        var session := Session(totalSize, chunkSize, seq(DivCeil(totalSize, chunkSize), _ => None));
        (s.(uploads := s.uploads[key := session]), Has(id))
      else (s, Refused)
    case Piece(id, index, bytes, chunkHash) =>
      if key in s.uploads && FitsSession(h, s.uploads[key], e.message) then
        var session := s.uploads[key];
        (s.(uploads := s.uploads[key := session.(chunks := session.chunks[index := Some(bytes)])]), Has(chunkHash))
      else (s.(uploads := s.uploads - {key}), Refused)
    case Finish(id) =>
      var closed := s.(uploads := s.uploads - {key});
      if key in s.uploads && Complete(s.uploads[key].chunks) then
        var bytes := Flatten(s.uploads[key].chunks);
        if |bytes| == s.uploads[key].totalSize && h(bytes) == id
        then (closed.(store := Put(h, s.store, bytes)), Has(id))
        else (closed, Refused)
      else (closed, Refused)
  }

  // ----- What every message keeps -----

  predicate SessionOk(session: Session) {
    && session.totalSize <= MAX_CONTENT_SIZE && session.chunkSize == CONTENT_CHUNK_SIZE
    && |session.chunks| == DivCeil(session.totalSize, CONTENT_CHUNK_SIZE)
    && forall i | 0 <= i < |session.chunks| ::
         session.chunks[i].Some? ==> |session.chunks[i].value| <= CONTENT_CHUNK_SIZE
  }

  /** Few sessions, a bounded sum of declared sizes, and a store that never lies about its ids. */
  ghost predicate Bounded(h: Hash, s: State) {
    && |s.uploads| <= MAX_ACTIVE_UPLOADS
    && MapSums.Sum(Sizes(s.uploads)) <= MAX_IN_FLIGHT_UPLOAD_BYTES
    && (forall k | k in s.uploads :: SessionOk(s.uploads[k]))
    && (forall id | id in s.store :: h(s.store[id]) == id)
  }

  /** A session buffers less than one chunk more than it declared. */
  lemma BufferBound(session: Session)
    requires SessionOk(session)
    ensures FilledBytes(session.chunks) <= session.totalSize + CONTENT_CHUNK_SIZE - 1
  {
    FilledBound(session.chunks, CONTENT_CHUNK_SIZE);
    CeilBounds(session.totalSize, CONTENT_CHUNK_SIZE);
  }

  lemma StoredSizes(uploads: map<Key, Session>, key: Key, session: Session)
    ensures MapSums.Sum(Sizes(uploads[key := session])) == session.totalSize + Reserved(uploads, key)
    ensures MapSums.Sum(Sizes(uploads - {key})) == Reserved(uploads, key)
    ensures Reserved(uploads, key) <= MapSums.Sum(Sizes(uploads))
    ensures key in uploads ==> MapSums.Sum(Sizes(uploads)) == uploads[key].totalSize + Reserved(uploads, key)
  {
    hide MapSums.Sum;
    var sizes := Sizes(uploads);
    MapSums.SumStore(sizes, key, session.totalSize);
    assert Sizes(uploads[key := session]) == sizes[key := session.totalSize as nat];
    assert Sizes(uploads - {key}) == sizes - {key};
    if key in uploads {
      MapSums.SumRemove(sizes, key);
    } else {
      assert sizes - {key} == sizes;
    }
  }

  lemma StoredCount(uploads: map<Key, Session>, key: Key, session: Session)
    ensures |uploads[key := session]| == |uploads| + (if key in uploads then 0 else 1)
    ensures |uploads - {key}| <= |uploads|
  {
    assert uploads[key := session].Keys == uploads.Keys + {key};
    assert (uploads - {key}).Keys == uploads.Keys - {key};
    assert |uploads| == |uploads.Keys| && |uploads - {key}| == |(uploads - {key}).Keys|;
    assert |uploads[key := session]| == |uploads[key := session].Keys|;
  }

  lemma DropKeepsBounds(h: Hash, s: State, key: Key)
    requires Bounded(h, s)
    ensures Bounded(h, s.(uploads := s.uploads - {key}))
  {
    StoredSizes(s.uploads, key, Session(0, CONTENT_CHUNK_SIZE, []));
    StoredCount(s.uploads, key, Session(0, CONTENT_CHUNK_SIZE, []));
  }

  lemma OpenKeepsBounds(h: Hash, s: State, key: Key, session: Session)
    requires Bounded(h, s) && SessionOk(session)
    requires Admits(s.uploads, key, session.totalSize, CONTENT_CHUNK_SIZE)
    ensures Bounded(h, s.(uploads := s.uploads[key := session]))
  {
    hide MapSums.Sum, SessionOk;
    StoredSizes(s.uploads, key, session);
    StoredCount(s.uploads, key, session);
  }

  lemma FillKeepsBounds(h: Hash, s: State, key: Key, session: Session)
    requires Bounded(h, s) && SessionOk(session) && key in s.uploads && session.totalSize == s.uploads[key].totalSize
    ensures Bounded(h, s.(uploads := s.uploads[key := session]))
  {
    hide MapSums.Sum, SessionOk;
    StoredSizes(s.uploads, key, session);
    StoredCount(s.uploads, key, session);
  }

  lemma PutKeepsBounds(h: Hash, s: State, bytes: Bytes)
    requires Bounded(h, s)
    ensures Bounded(h, s.(store := Put(h, s.store, bytes)))
  {
    hide MapSums.Sum, SessionOk;
  }

  lemma NewSessionOk(totalSize: u64)
    requires totalSize <= MAX_CONTENT_SIZE
    ensures SessionOk(Session(totalSize, CONTENT_CHUNK_SIZE, seq(DivCeil(totalSize, CONTENT_CHUNK_SIZE), _ => None)))
  {
  }

  lemma FilledSessionOk(h: Hash, session: Session, m: Message)
    requires SessionOk(session) && m.Piece? && FitsSession(h, session, m)
    ensures SessionOk(session.(chunks := session.chunks[m.index := Some(m.bytes)]))
  {
  }

  lemma SessionOkIn(h: Hash, s: State, key: Key)
    requires Bounded(h, s) && key in s.uploads
    ensures SessionOk(s.uploads[key])
  {
    hide MapSums.Sum;
  }

  /** Any message from any signer keeps the sessions bounded and the store honest. */
  lemma HandleKeepsBounds(h: Hash, s: State, e: Envelope)
    requires Bounded(h, s)
    ensures Bounded(h, Handle(h, s, e).0)
  {
    var key := KeyOf(e);
    hide Bounded, SessionOk, Flatten, Put, Complete, Reserved;
    match e.message {
      case Content(_, bytes) => PutKeepsBounds(h, s, bytes);
      case Start(_, totalSize, chunkSize) =>
        if Admits(s.uploads, key, totalSize, chunkSize) {
          NewSessionOk(totalSize);
          OpenKeepsBounds(h, s, key, Session(totalSize, chunkSize, seq(DivCeil(totalSize, chunkSize), _ => None)));
        }
      case Piece(_, index, bytes, _) =>
        DropKeepsBounds(h, s, key);
        if key in s.uploads && FitsSession(h, s.uploads[key], e.message) {
          SessionOkIn(h, s, key);
          FilledSessionOk(h, s.uploads[key], e.message);
          FillKeepsBounds(h, s, key, s.uploads[key].(chunks := s.uploads[key].chunks[index := Some(bytes)]));
        }
      case Finish(_) =>
        DropKeepsBounds(h, s, key);
        if key in s.uploads { PutKeepsBounds(h, s.(uploads := s.uploads - {key}), Flatten(s.uploads[key].chunks)); }
    }
  }

  // ----- Sending -----

  ghost function HandleAll(h: Hash, s: State, traffic: seq<Envelope>): State {
    if traffic == [] then s
    else Handle(h, HandleAll(h, s, traffic[..|traffic| - 1]), traffic[|traffic| - 1]).0
  }

  predicate OtherKeys(traffic: seq<Envelope>, key: Key) {
    forall e | e in traffic :: KeyOf(e) != key
  }

  /** A refused piece or finish closes its session and stores nothing; a refused start or content changes nothing. */
  lemma RefusalClosesSession(h: Hash, s: State, e: Envelope)
    requires Handle(h, s, e).1 == Refused
    ensures var next := Handle(h, s, e).0;
            && next.store == s.store
            && next.uploads == if e.message.Piece? || e.message.Finish? then s.uploads - {KeyOf(e)} else s.uploads
  {
  }

  /**
   * A piece is taken exactly when its session is open, its bytes have the hash it names and fit a chunk,
   * and its index is one of the session's; it then fills that slot and nothing else.
   */
  lemma PieceTakenExactly(h: Hash, s: State, e: Envelope)
    requires e.message.Piece?
    ensures var m, key, (next, reply) := e.message, Key(e.signer, e.message.id), Handle(h, s, e);
            && (reply != Refused <==>
                && key in s.uploads && h(m.bytes) == m.chunkHash && |m.bytes| <= s.uploads[key].chunkSize
                && m.index < |s.uploads[key].chunks|)
            && (reply != Refused ==>
                && reply == Has(m.chunkHash) && next.store == s.store && next.uploads.Keys == s.uploads.Keys
                && (forall k | k in s.uploads && k != key :: next.uploads[k] == s.uploads[k])
                && next.uploads[key].totalSize == s.uploads[key].totalSize
                && next.uploads[key].chunks == s.uploads[key].chunks[m.index := Some(m.bytes)])
  {
  }

  /** Whatever is sent, by anyone, stored content stays as it is. */
  lemma {:induction false} StoredContentIsKept(h: Hash, s: State, traffic: seq<Envelope>)
    ensures forall id | id in s.store ::
              id in HandleAll(h, s, traffic).store && HandleAll(h, s, traffic).store[id] == s.store[id]
    decreases |traffic|
  {
    if traffic != [] {
      var n := |traffic| - 1;
      StoredContentIsKept(h, s, traffic[..n]);
      MessageKeepsContent(h, HandleAll(h, s, traffic[..n]), traffic[n]);
      hide Handle;
    }
  }

  lemma MessageKeepsContent(h: Hash, s: State, e: Envelope)
    ensures forall id | id in s.store :: id in Handle(h, s, e).0.store && Handle(h, s, e).0.store[id] == s.store[id]
  {
    hide Flatten, Complete, MapSums.Sum;
  }

  /** Sessions that agree on one key. */
  predicate SameSession(a: State, b: State, key: Key) {
    (key in a.uploads <==> key in b.uploads) && (key in a.uploads ==> a.uploads[key] == b.uploads[key])
  }

  lemma OtherKeyKeepsSession(h: Hash, s: State, e: Envelope, key: Key)
    requires KeyOf(e) != key
    ensures SameSession(s, Handle(h, s, e).0, key)
  {
    hide Flatten, MapSums.Sum;
  }

  lemma {:induction false} TrafficKeepsSession(h: Hash, s: State, traffic: seq<Envelope>, key: Key)
    requires OtherKeys(traffic, key)
    ensures SameSession(s, HandleAll(h, s, traffic), key)
    decreases |traffic|
  {
    hide Handle;
    if traffic != [] {
      var n := |traffic| - 1;
      TrafficKeepsSession(h, s, traffic[..n], key);
      OtherKeyKeepsSession(h, HandleAll(h, s, traffic[..n]), traffic[n], key);
    }
  }

  lemma {:induction false} TrafficKeepsBounds(h: Hash, s: State, traffic: seq<Envelope>)
    requires Bounded(h, s)
    ensures Bounded(h, HandleAll(h, s, traffic))
    decreases |traffic|
  {
    hide Handle, Bounded;
    if traffic != [] {
      var n := |traffic| - 1;
      TrafficKeepsBounds(h, s, traffic[..n]);
      HandleKeepsBounds(h, HandleAll(h, s, traffic[..n]), traffic[n]);
    }
  }

  predicate Large(bytes: Bytes) {
    CONTENT_CHUNK_SIZE < |bytes| <= MAX_CONTENT_SIZE
  }

  function PieceCount(bytes: Bytes): nat {
    DivCeil(|bytes|, CONTENT_CHUNK_SIZE)
  }

  function PieceAt(h: Hash, id: ContentId, bytes: Bytes, i: nat): Message
    requires |bytes| <= MAX_CONTENT_SIZE && i < PieceCount(bytes)
  {
    var chunk := Chunk(bytes, CONTENT_CHUNK_SIZE, i);
    Piece(id, i, chunk, h(chunk))
  }

  /** The session of this upload after its first `i` pieces. */
  predicate Underway(s: State, key: Key, bytes: Bytes, i: nat) {
    && key in s.uploads
    && var session := s.uploads[key];
    && session.totalSize == |bytes| && session.chunkSize == CONTENT_CHUNK_SIZE
    && |session.chunks| == PieceCount(bytes)
    && forall j: nat | j < |session.chunks| ::
         session.chunks[j] == if j < i then Some(Chunk(bytes, CONTENT_CHUNK_SIZE, j)) else None
  }

  lemma SessionSurvives(h: Hash, s: State, traffic: seq<Envelope>, key: Key, bytes: Bytes, i: nat)
    requires Underway(s, key, bytes, i) && OtherKeys(traffic, key)
    ensures Underway(HandleAll(h, s, traffic), key, bytes, i)
  {
    TrafficKeepsSession(h, s, traffic, key);
    hide HandleAll, Chunk;
  }

  lemma StartOpens(h: Hash, s: State, key: Key, bytes: Bytes)
    requires Large(bytes)
    ensures var (next, reply) := Handle(h, s, Envelope(key.signer, Start(key.id, |bytes|, CONTENT_CHUNK_SIZE)));
            if Admits(s.uploads, key, |bytes|, CONTENT_CHUNK_SIZE)
            then reply == Has(key.id) && next.store == s.store && Underway(next, key, bytes, 0)
            else reply == Refused && next == s
  {
    hide Admits, Chunk;
  }

  lemma PieceFills(h: Hash, s: State, key: Key, bytes: Bytes, i: nat)
    requires Large(bytes) && Underway(s, key, bytes, i) && i < PieceCount(bytes)
    ensures var (next, reply) := Handle(h, s, Envelope(key.signer, PieceAt(h, key.id, bytes, i)));
            reply == Has(h(Chunk(bytes, CONTENT_CHUNK_SIZE, i))) && next.store == s.store
            && Underway(next, key, bytes, i + 1)
  {
    ChunkBounds(bytes, CONTENT_CHUNK_SIZE, i);
    hide Chunk;
  }

  lemma FinishStores(h: Hash, s: State, key: Key, bytes: Bytes)
    requires Underway(s, key, bytes, PieceCount(bytes)) && h(bytes) == key.id
    ensures Handle(h, s, Envelope(key.signer, Finish(key.id)))
            == (State(s.uploads - {key}, Put(h, s.store, bytes)), Has(key.id))
  {
    var chunks := s.uploads[key].chunks;
    FlattenIsConcat(chunks);
    assert Values(chunks) == Chunks(bytes, CONTENT_CHUNK_SIZE);
    ChunksRebuild(bytes, CONTENT_CHUNK_SIZE);
    hide Chunk, Flatten, Concat, Chunks;
  }

  /** What the sender finds when it sends its piece `i`: its start, then pieces and traffic in turn. */
  ghost function BeforePiece(h: Hash, s: State, key: Key, bytes: Bytes, traffic: seq<seq<Envelope>>, i: nat): State
    requires |bytes| <= MAX_CONTENT_SIZE && i <= PieceCount(bytes) < |traffic|
    decreases i
  {
    if i == 0 then HandleAll(h, s, traffic[0])
    else
      var before := BeforePiece(h, s, key, bytes, traffic, i - 1);
      HandleAll(h, Handle(h, before, Envelope(key.signer, PieceAt(h, key.id, bytes, i - 1))).0, traffic[i])
  }

  lemma {:induction false} EveryPieceLands(
    h: Hash, s: State, key: Key, bytes: Bytes, traffic: seq<seq<Envelope>>, i: nat)
    requires Large(bytes) && Underway(s, key, bytes, 0)
    requires i <= PieceCount(bytes) < |traffic| && forall k | 0 <= k < |traffic| :: OtherKeys(traffic[k], key)
    ensures Underway(BeforePiece(h, s, key, bytes, traffic, i), key, bytes, i)
    ensures i < PieceCount(bytes) ==>
              Handle(h, BeforePiece(h, s, key, bytes, traffic, i), Envelope(key.signer, PieceAt(h, key.id, bytes, i))).1
              == Has(h(Chunk(bytes, CONTENT_CHUNK_SIZE, i)))
    decreases i
  {
    hide Handle, HandleAll, Underway, Chunk, OtherKeys;
    if i == 0 {
      SessionSurvives(h, s, traffic[0], key, bytes, 0);
    } else {
      EveryPieceLands(h, s, key, bytes, traffic, i - 1);
      var before := BeforePiece(h, s, key, bytes, traffic, i - 1);
      PieceFills(h, before, key, bytes, i - 1);
      var piece := Envelope(key.signer, PieceAt(h, key.id, bytes, i - 1));
      SessionSurvives(h, Handle(h, before, piece).0, traffic[i], key, bytes, i);
    }
    if i < PieceCount(bytes) { PieceFills(h, BeforePiece(h, s, key, bytes, traffic, i), key, bytes, i); }
  }

  /**
   * An upload whose start is admitted delivers, whatever happens on other keys between its messages:
   * every piece is acknowledged, the finish stores exactly the sent bytes, and the session is gone.
   */
  lemma AdmittedUploadDelivers(h: Hash, s: State, key: Key, bytes: Bytes, traffic: seq<seq<Envelope>>)
    requires Large(bytes) && h(bytes) == key.id && Bounded(h, s)
    requires PieceCount(bytes) < |traffic| && forall k | 0 <= k < |traffic| :: OtherKeys(traffic[k], key)
    requires Admits(s.uploads, key, |bytes|, CONTENT_CHUNK_SIZE)
    ensures var started := Handle(h, s, Envelope(key.signer, Start(key.id, |bytes|, CONTENT_CHUNK_SIZE)));
            var last := BeforePiece(h, started.0, key, bytes, traffic, PieceCount(bytes));
            var finished := Handle(h, last, Envelope(key.signer, Finish(key.id)));
            && started.1 == Has(key.id) && finished.1 == Has(key.id)
            && (forall i: nat | i < PieceCount(bytes) ::
                  Handle(h, BeforePiece(h, started.0, key, bytes, traffic, i),
                         Envelope(key.signer, PieceAt(h, key.id, bytes, i))).1
                  == Has(h(Chunk(bytes, CONTENT_CHUNK_SIZE, i))))
            && key !in finished.0.uploads && key.id in finished.0.store
            && finished.0.store == Put(h, last.store, bytes)
            && (finished.0.store[key.id] == bytes || Collision(h, (finished.0.store[key.id], bytes)))
  {
    var started := Handle(h, s, Envelope(key.signer, Start(key.id, |bytes|, CONTENT_CHUNK_SIZE))).0;
    StartOpens(h, s, key, bytes);
    HandleKeepsBounds(h, s, Envelope(key.signer, Start(key.id, |bytes|, CONTENT_CHUNK_SIZE)));
    hide Handle, HandleAll, Underway, Chunk, OtherKeys, Admits, Bounded;
    forall i: nat | i < PieceCount(bytes)
      ensures Handle(h, BeforePiece(h, started, key, bytes, traffic, i),
                     Envelope(key.signer, PieceAt(h, key.id, bytes, i))).1
              == Has(h(Chunk(bytes, CONTENT_CHUNK_SIZE, i)))
    {
      EveryPieceLands(h, started, key, bytes, traffic, i);
    }
    EveryPieceLands(h, started, key, bytes, traffic, PieceCount(bytes));
    var last := BeforePiece(h, started, key, bytes, traffic, PieceCount(bytes));
    FinishStores(h, last, key, bytes);
    PiecesKeepBounds(h, started, key, bytes, traffic, PieceCount(bytes));
    StoredHonestly(h, last, bytes);
  }

  lemma {:induction false} PiecesKeepBounds(
    h: Hash, s: State, key: Key, bytes: Bytes, traffic: seq<seq<Envelope>>, i: nat)
    requires |bytes| <= MAX_CONTENT_SIZE && i <= PieceCount(bytes) < |traffic| && Bounded(h, s)
    ensures Bounded(h, BeforePiece(h, s, key, bytes, traffic, i))
    decreases i
  {
    hide Handle, HandleAll, Bounded, PieceAt;
    if i == 0 {
      TrafficKeepsBounds(h, s, traffic[0]);
    } else {
      PiecesKeepBounds(h, s, key, bytes, traffic, i - 1);
      var before := BeforePiece(h, s, key, bytes, traffic, i - 1);
      var e := Envelope(key.signer, PieceAt(h, key.id, bytes, i - 1));
      HandleKeepsBounds(h, before, e);
      TrafficKeepsBounds(h, Handle(h, before, e).0, traffic[i]);
    }
  }

  lemma StoredHonestly(h: Hash, s: State, bytes: Bytes)
    requires Bounded(h, s)
    ensures h(bytes) in Put(h, s.store, bytes)
    ensures Put(h, s.store, bytes)[h(bytes)] == bytes || Collision(h, (Put(h, s.store, bytes)[h(bytes)], bytes))
  {
    hide MapSums.Sum, SessionOk;
  }

  // ----- Receiver and sender, in place -----

  class Receiver {
    var uploads: map<Key, Session>
    var store: map<ContentId, Bytes>

    function View(): State
      reads this
    {
      State(uploads, store)
    }

    constructor ()
      ensures View() == State(map[], map[]) && forall h: Hash :: Bounded(h, View())
    {
      uploads, store := map[], map[];
    }

    method Receive(h: Hash, e: Envelope) returns (reply: Reply)
      requires Bounded(h, View())
      modifies this
      ensures (View(), reply) == Handle(h, old(View()), e)
      ensures Bounded(h, View())
    {
      HandleKeepsBounds(h, View(), e);
      hide Handle, Bounded;
      match e.message {
        case Content(id, bytes) => reply := Keep(h, e.signer, id, bytes);
        case Start(id, totalSize, chunkSize) => reply := Begin(h, KeyOf(e), totalSize, chunkSize);
        case Piece(id, index, bytes, chunkHash) => reply := Fill(h, KeyOf(e), index, bytes, chunkHash);
        case Finish(id) => reply := Close(h, KeyOf(e));
      }
    }

    method Keep(h: Hash, signer: NodeId, id: ContentId, bytes: Bytes) returns (reply: Reply)
      modifies this
      ensures (View(), reply) == Handle(h, old(View()), Envelope(signer, Content(id, bytes)))
    {
      if h(bytes) != id {
        return Refused;
      }
      store := Put(h, store, bytes);
      return Has(id);
    }

    method Begin(h: Hash, key: Key, totalSize: u64, chunkSize: u32) returns (reply: Reply)
      modifies this
      ensures (View(), reply) == Handle(h, old(View()), Envelope(key.signer, Start(key.id, totalSize, chunkSize)))
    {
      hide MapSums.Sum, DivCeil;
      var reserved := MapSums.Total(Sizes(uploads) - {key});
      if totalSize <= MAX_CONTENT_SIZE && chunkSize == CONTENT_CHUNK_SIZE
         && (key in uploads || |uploads| < MAX_ACTIVE_UPLOADS)
         && reserved + totalSize <= MAX_IN_FLIGHT_UPLOAD_BYTES {
        uploads := uploads[key := Session(totalSize, chunkSize, seq(DivCeil(totalSize, chunkSize), _ => None))];
        return Has(key.id);
      }
      return Refused;
    }

    method Fill(h: Hash, key: Key, index: u32, bytes: Bytes, chunkHash: ContentId) returns (reply: Reply)
      modifies this
      ensures (View(), reply) == Handle(h, old(View()), Envelope(key.signer, Piece(key.id, index, bytes, chunkHash)))
    {
      if key in uploads && h(bytes) == chunkHash && |bytes| <= uploads[key].chunkSize && index < |uploads[key].chunks| {
        var session := uploads[key];
        uploads := uploads[key := session.(chunks := session.chunks[index := Some(bytes)])];
        return Has(chunkHash);
      }
      uploads := uploads - {key};
      return Refused;
    }

    method Close(h: Hash, key: Key) returns (reply: Reply)
      modifies this
      ensures (View(), reply) == Handle(h, old(View()), Envelope(key.signer, Finish(key.id)))
    {
      hide Flatten;
      if key !in uploads {
        uploads := uploads - {key};
        return Refused;
      }
      var session := uploads[key];
      uploads := uploads - {key};
      if exists i | 0 <= i < |session.chunks| :: session.chunks[i].None? {
        return Refused;
      }
      var bytes := Join(session.chunks);
      if |bytes| != session.totalSize || h(bytes) != key.id {
        return Refused;
      }
      store := Put(h, store, bytes);
      return Has(key.id);
    }

    method ReceiveAll(h: Hash, traffic: seq<Envelope>)
      requires Bounded(h, View())
      modifies this
      ensures View() == HandleAll(h, old(View()), traffic) && Bounded(h, View())
    {
      hide Handle, Bounded;
      for i := 0 to |traffic|
        invariant View() == HandleAll(h, old(View()), traffic[..i]) && Bounded(h, View())
      {
        assert traffic[..i + 1][..i] == traffic[..i];
        var reply := Receive(h, traffic[i]);
      }
      assert traffic[..|traffic|] == traffic;
    }
  }

  datatype SendError = Rejected | UnexpectedResponse

  /**
   * The sender's loop. `traffic[i]` is what the receiver handles for other keys before piece `i`, and
   * its last entry before the finish. It succeeds exactly when the content is what its id says and
   * the transfer is small or its start is admitted; and then the receiver holds the content.
   */
  method Transfer(h: Hash, node: Receiver, signer: NodeId, id: ContentId, bytes: Bytes, traffic: seq<seq<Envelope>>)
    returns (r: Option<SendError>)
    requires Bounded(h, node.View()) && |bytes| <= U64_MAX
    requires PieceCount(bytes) < |traffic| && forall k | 0 <= k < |traffic| :: OtherKeys(traffic[k], Key(signer, id))
    modifies node
    ensures Bounded(h, node.View())
    ensures r.None? <==> h(bytes) == id && (|bytes| <= CONTENT_CHUNK_SIZE ||
                           Admits(old(node.uploads), Key(signer, id), |bytes|, CONTENT_CHUNK_SIZE))
    ensures r.Some? ==> node.View() == old(node.View())
    ensures r.None? ==> id in node.store && (node.store[id] == bytes || Collision(h, (node.store[id], bytes)))
    ensures r.None? && |bytes| > CONTENT_CHUNK_SIZE ==> Key(signer, id) !in node.uploads
  {
    var key := Key(signer, id);
    if h(bytes) != id {
      return Some(Rejected);
    }
    if |bytes| <= CONTENT_CHUNK_SIZE {
      StoredHonestly(h, node.View(), bytes);
      hide Bounded;
      var reply := node.Receive(h, Envelope(signer, Content(id, bytes)));
      return if reply == Has(id) then None else Some(UnexpectedResponse);
    }
    if |bytes| <= MAX_CONTENT_SIZE {
      StartOpens(h, node.View(), key, bytes);
    }
    var reply := node.Receive(h, Envelope(signer, Start(id, |bytes|, CONTENT_CHUNK_SIZE)));
    if reply != Has(id) {
      return Some(UnexpectedResponse);
    }
    r := SendPieces(h, node, key, bytes, traffic);
  }

  method SendPieces(h: Hash, node: Receiver, key: Key, bytes: Bytes, traffic: seq<seq<Envelope>>)
    returns (r: Option<SendError>)
    requires Large(bytes) && h(bytes) == key.id && Bounded(h, node.View()) && Underway(node.View(), key, bytes, 0)
    requires PieceCount(bytes) < |traffic| && forall k | 0 <= k < |traffic| :: OtherKeys(traffic[k], key)
    modifies node
    ensures Bounded(h, node.View()) && r.None? && key !in node.uploads
    ensures key.id in node.store && (node.store[key.id] == bytes || Collision(h, (node.store[key.id], bytes)))
  {
    hide Handle, HandleAll, Bounded, Underway, OtherKeys, Chunk;
    for i := 0 to PieceCount(bytes)
      invariant Bounded(h, node.View()) && Underway(node.View(), key, bytes, i)
    {
      SessionSurvives(h, node.View(), traffic[i], key, bytes, i);
      node.ReceiveAll(h, traffic[i]);
      PieceFills(h, node.View(), key, bytes, i);
      var reply := node.Receive(h, Envelope(key.signer, PieceAt(h, key.id, bytes, i)));
      if reply != Has(h(Chunk(bytes, CONTENT_CHUNK_SIZE, i))) {
        assert false; // no piece of an admitted upload is refused
      }
    }
    SessionSurvives(h, node.View(), traffic[PieceCount(bytes)], key, bytes, PieceCount(bytes));
    node.ReceiveAll(h, traffic[PieceCount(bytes)]);
    FinishStores(h, node.View(), key, bytes);
    StoredHonestly(h, node.View(), bytes);
    var reply := node.Receive(h, Envelope(key.signer, Finish(key.id)));
    return if reply == Has(key.id) then None else Some(UnexpectedResponse);
  }
}
