/** Uploads behind the request rate limit: every message of a transfer is also a request. */
module LimitedUploads {
  import opened Common
  import opened Protocol
  import opened Slots
  import B = RequestBudget
  import U = Uploads

  datatype Node = Node(state: U.State, budget: B.Budget)

  /** A request is first charged to its signer; past the limit it is refused without being handled. */
  ghost function Serve(h: U.Hash, node: Node, e: U.Envelope, at: u64): (Node, U.Reply) {
    var r := B.Request(e.signer, at);
    if B.Admits(node.budget, r) then
      var (state, reply) := U.Handle(h, node.state, e);
      (Node(state, B.Consume(node.budget, r)), reply)
    else (node.(budget := B.Consume(node.budget, r)), U.Refused)
  }

  /** A transfer is one start, its pieces, and one finish. */
  function Length(bytes: Bytes): nat {
    U.PieceCount(bytes) + 2
  }

  function MessageAt(h: U.Hash, id: ContentId, bytes: Bytes, k: nat): U.Message
    requires U.Large(bytes) && k < Length(bytes)
  {
    if k == 0 then U.Start(id, |bytes|, U.CONTENT_CHUNK_SIZE)
    else if k <= U.PieceCount(bytes) then U.PieceAt(h, id, bytes, k - 1)
    else U.Finish(id)
  }

  /** What the sender waits for before its next message. */
  function Expected(h: U.Hash, id: ContentId, bytes: Bytes, k: nat): U.Reply
    requires U.Large(bytes) && k < Length(bytes)
  {
    if 1 <= k <= U.PieceCount(bytes) then U.Has(h(Chunk(bytes, U.CONTENT_CHUNK_SIZE, k - 1))) else U.Has(id)
  }

  /** The node after the first `k` messages; message `i` is handled at `clock(i)`. */
  ghost function NodeAfter(h: U.Hash, node: Node, key: U.Key, bytes: Bytes, clock: nat -> u64, k: nat): Node
    requires U.Large(bytes) && k <= Length(bytes)
    decreases k
  {
    if k == 0 then node
    else
      Serve(h, NodeAfter(h, node, key, bytes, clock, k - 1),
            U.Envelope(key.signer, MessageAt(h, key.id, bytes, k - 1)), clock(k - 1)).0
  }

  ghost function ReplyTo(h: U.Hash, node: Node, key: U.Key, bytes: Bytes, clock: nat -> u64, k: nat): U.Reply
    requires U.Large(bytes) && k < Length(bytes)
  {
    var message := U.Envelope(key.signer, MessageAt(h, key.id, bytes, k));
    Serve(h, NodeAfter(h, node, key, bytes, clock, k), message, clock(k)).1
  }

  ghost predicate Acknowledged(h: U.Hash, node: Node, key: U.Key, bytes: Bytes, clock: nat -> u64, k: nat)
    requires U.Large(bytes) && k < Length(bytes)
  {
    ReplyTo(h, node, key, bytes, clock, k) == Expected(h, key.id, bytes, k)
  }

  /** How many more requests of a signer its window admits when nobody else asks. */
  function Left(b: B.Budget, signer: NodeId): int {
    var own, all := B.MAX_PER_IDENTITY - B.Spent(b, signer), B.MAX_GLOBAL - b.global;
    if own <= all then own else all
  }

  /** All messages of the transfer are handled before the window ends. */
  predicate InWindow(b: B.Budget, bytes: Bytes, clock: nat -> u64) {
    forall k: nat | k < Length(bytes) :: !B.Expired(b, clock(k))
  }

  predicate Session(s: U.State, key: U.Key, bytes: Bytes, k: nat) {
    k >= 1 ==> if k < Length(bytes) then U.Underway(s, key, bytes, k - 1) else key !in s.uploads && key.id in s.store
  }

  /** While the budget lasts, the transfer makes progress and every message costs one request. */
  lemma {:induction false} TransferProgress(h: U.Hash, node: Node, key: U.Key, bytes: Bytes, clock: nat -> u64, k: nat)
    requires U.Large(bytes) && h(bytes) == key.id && U.Admits(node.state.uploads, key, |bytes|, U.CONTENT_CHUNK_SIZE)
    requires InWindow(node.budget, bytes, clock) && k <= Length(bytes) && k <= Left(node.budget, key.signer)
    ensures var now := NodeAfter(h, node, key, bytes, clock, k);
            && now.budget == B.Charged(node.budget, key.signer, k)
            && (k == 0 ==> now.state == node.state) && Session(now.state, key, bytes, k)
    ensures forall i: nat | i < k :: Acknowledged(h, node, key, bytes, clock, i)
    decreases k
  {
    hide *;
    if k == 0 {
      NothingSent(h, node, key, bytes, clock);
    } else {
      TransferProgress(h, node, key, bytes, clock, k - 1);
      var before := NodeAfter(h, node, key, bytes, clock, k - 1);
      AnyInWindow(node.budget, bytes, clock, k - 1);
      ChargeNext(node.budget, key.signer, k - 1, clock(k - 1));
      StepTransfer(h, before.state, key, bytes, k - 1);
      ServeOnce(h, node, key, bytes, clock, k - 1);
    }
  }

  lemma NothingSent(h: U.Hash, node: Node, key: U.Key, bytes: Bytes, clock: nat -> u64)
    requires U.Large(bytes)
    ensures NodeAfter(h, node, key, bytes, clock, 0) == node && B.Charged(node.budget, key.signer, 0) == node.budget
    ensures Session(node.state, key, bytes, 0)
  {
  }

  lemma AnyInWindow(b: B.Budget, bytes: Bytes, clock: nat -> u64, k: nat)
    requires InWindow(b, bytes, clock) && k < Length(bytes)
    ensures !B.Expired(b, clock(k))
  {
  }

  lemma ServeOnce(h: U.Hash, node: Node, key: U.Key, bytes: Bytes, clock: nat -> u64, k: nat)
    requires U.Large(bytes) && k < Length(bytes)
    requires B.Admits(NodeAfter(h, node, key, bytes, clock, k).budget, B.Request(key.signer, clock(k)))
    ensures var before := NodeAfter(h, node, key, bytes, clock, k);
            var (next, reply) := U.Handle(h, before.state, U.Envelope(key.signer, MessageAt(h, key.id, bytes, k)));
            && NodeAfter(h, node, key, bytes, clock, k + 1)
               == Node(next, B.Consume(before.budget, B.Request(key.signer, clock(k))))
            && (Acknowledged(h, node, key, bytes, clock, k) <==> reply == Expected(h, key.id, bytes, k))
  {
    hide U.Handle, B.Admits, B.Consume, MessageAt, Expected, U.Large;
  }

  lemma ChargeNext(b: B.Budget, signer: NodeId, n: nat, at: u64)
    requires !B.Expired(b, at) && n < Left(b, signer)
    ensures B.Admits(B.Charged(b, signer, n), B.Request(signer, at))
    ensures B.Consume(B.Charged(b, signer, n), B.Request(signer, at)) == B.Charged(b, signer, n + 1)
  {
    var c := B.Charged(b, signer, n);
    assert B.Spent(c, signer) == B.Spent(b, signer) + n && c.global == b.global + n;
    assert c.identities[signer := B.Spent(b, signer) + n + 1] == b.identities[signer := B.Spent(b, signer) + n + 1];
  }

  lemma StepTransfer(h: U.Hash, s: U.State, key: U.Key, bytes: Bytes, k: nat)
    requires U.Large(bytes) && h(bytes) == key.id && k < Length(bytes) && Session(s, key, bytes, k)
    requires k == 0 ==> U.Admits(s.uploads, key, |bytes|, U.CONTENT_CHUNK_SIZE)
    ensures var (next, reply) := U.Handle(h, s, U.Envelope(key.signer, MessageAt(h, key.id, bytes, k)));
            reply == Expected(h, key.id, bytes, k) && Session(next, key, bytes, k + 1)
  {
    hide U.Handle, U.Admits, U.Underway;
    CeilBounds(|bytes|, U.CONTENT_CHUNK_SIZE);
    if k == 0 {
      U.StartOpens(h, s, key, bytes);
    } else if k <= U.PieceCount(bytes) {
      U.PieceFills(h, s, key, bytes, k - 1);
    } else {
      U.FinishStores(h, s, key, bytes);
    }
  }

  lemma Exhausted(b: B.Budget, signer: NodeId, at: u64)
    requires !B.Expired(b, at) && 0 <= Left(b, signer)
    ensures !B.Admits(B.Charged(b, signer, Left(b, signer)), B.Request(signer, at))
  {
    var n := Left(b, signer);
    var c := B.Charged(b, signer, n);
    assert B.Spent(c, signer) == B.Spent(b, signer) + n && c.global == b.global + n;
  }

  lemma RefusedNext(h: U.Hash, node: Node, key: U.Key, bytes: Bytes, clock: nat -> u64, k: nat)
    requires U.Large(bytes) && k < Length(bytes)
    requires !B.Admits(NodeAfter(h, node, key, bytes, clock, k).budget, B.Request(key.signer, clock(k)))
    ensures ReplyTo(h, node, key, bytes, clock, k) == U.Refused && !Acknowledged(h, node, key, bytes, clock, k)
  {
    hide U.Handle, NodeAfter, B.Admits, B.Consume, MessageAt;
  }

  /**
   * A transfer within one window, with nobody else asking, is acknowledged to its end exactly when
   * its start, pieces and finish are no more requests than the window has left; otherwise as many
   * as are left are acknowledged and the next message is refused.
   */
  lemma TransferFitsExactly(h: U.Hash, node: Node, key: U.Key, bytes: Bytes, clock: nat -> u64)
    requires U.Large(bytes) && h(bytes) == key.id && U.Admits(node.state.uploads, key, |bytes|, U.CONTENT_CHUNK_SIZE)
    requires InWindow(node.budget, bytes, clock) && 0 <= Left(node.budget, key.signer)
    ensures (forall k: nat | k < Length(bytes) :: Acknowledged(h, node, key, bytes, clock, k))
            <==> Length(bytes) <= Left(node.budget, key.signer)
    ensures Length(bytes) <= Left(node.budget, key.signer) ==>
              var now := NodeAfter(h, node, key, bytes, clock, Length(bytes)).state;
              key !in now.uploads && key.id in now.store
    ensures var left := Left(node.budget, key.signer);
            left < Length(bytes) ==>
              && (forall k: nat | k < left :: Acknowledged(h, node, key, bytes, clock, k))
              && ReplyTo(h, node, key, bytes, clock, left) == U.Refused
  {
    var left := Left(node.budget, key.signer);
    if Length(bytes) <= left {
      TransferProgress(h, node, key, bytes, clock, Length(bytes));
    } else {
      TransferProgress(h, node, key, bytes, clock, left);
      assert !B.Expired(node.budget, clock(left));
      Exhausted(node.budget, key.signer, clock(left));
      RefusedNext(h, node, key, bytes, clock, left);
      hide NodeAfter, ReplyTo, U.Large, Session;
    }
  }

  /** With a fresh budget that is 4,094 pieces: no larger content can be sent within one window. */
  lemma LargestInOneWindow(h: U.Hash, s: U.State, key: U.Key, bytes: Bytes, start: u64, clock: nat -> u64)
    requires U.Large(bytes) && h(bytes) == key.id && U.Admits(s.uploads, key, |bytes|, U.CONTENT_CHUNK_SIZE)
    requires InWindow(B.Budget(start, 0, map[]), bytes, clock)
    ensures var node := Node(s, B.Budget(start, 0, map[]));
            (forall k: nat | k < Length(bytes) :: Acknowledged(h, node, key, bytes, clock, k))
            <==> |bytes| <= 4_094 * U.CONTENT_CHUNK_SIZE
  {
    PiecesWithin(bytes);
    assert Left(B.Budget(start, 0, map[]), key.signer) == B.MAX_PER_IDENTITY;
    hide Acknowledged, InWindow, U.Admits, U.Large, Left, U.PieceCount;
    TransferFitsExactly(h, Node(s, B.Budget(start, 0, map[])), key, bytes, clock);
  }

  lemma PiecesWithin(bytes: Bytes)
    ensures U.PieceCount(bytes) <= 4_094 <==> |bytes| <= 4_094 * U.CONTENT_CHUNK_SIZE
  {
    CeilBounds(|bytes|, U.CONTENT_CHUNK_SIZE);
    var n := U.PieceCount(bytes);
    hide U.PieceCount;
    assert |bytes| <= n * U.CONTENT_CHUNK_SIZE && (|bytes| > 0 ==> (n - 1) * U.CONTENT_CHUNK_SIZE < |bytes|);
  }
}
