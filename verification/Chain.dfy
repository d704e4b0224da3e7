/**
 * The persistent hash chain: appending blocks in memory and on disk, reopening a directory of block
 * files, and what a tip hash, a lost file or a finality certificate says about the whole chain.
 */
module Chain {
  import opened Common
  import opened Consensus
  import opened Protocol
  import Merkle

  const MAX_BLOCK_BYTES: nat := 16 * 1024 * 1024

  /** SHA-256 and the text forms of events and blocks, as abstract functions. */
  datatype Codec = Codec(
    h: Bytes -> Digest,
    event: SignedEvent -> Bytes,
    compact: Block -> Bytes,
    pretty: Block -> Bytes,
    parse: Bytes -> Option<Block>)
  {
    /** The compact form is injective, and parsing undoes the form written to disk. */
    ghost predicate Lawful() {
      && (forall a, b | compact(a) == compact(b) :: a == b)
      && (forall b :: parse(pretty(b)) == Some(b))
    }

    function BlockHash(b: Block): Digest {
      h(compact(b))
    }

    function Leaves(events: seq<SignedEvent>): (leaves: seq<Digest>)
      ensures |leaves| == |events|
    {
      seq<Digest>(|events|, i requires 0 <= i < |events| => h(event(events[i])))
    }

    function EventsRoot(events: seq<SignedEvent>): Digest {
      Merkle.Root(h, Leaves(events))
    }

    function PreviousOf(blocks: seq<Block>): Option<Digest> {
      if blocks == [] then None else Some(BlockHash(blocks[|blocks| - 1]))
    }

    /** A block that may follow `blocks`, network continuity aside. */
    predicate Follows(blocks: seq<Block>, b: Block) {
      && b.proposal.version == 1 && b.proposal.height == |blocks|
      && b.proposal.previous == PreviousOf(blocks)
      && b.proposal.eventsRoot == EventsRoot(b.events)
      && (blocks != [] ==> blocks[|blocks| - 1].proposal.timestamp <= b.proposal.timestamp)
    }

    predicate ValidChain(blocks: seq<Block>) {
      forall i | 0 <= i < |blocks| :: Follows(blocks[..i], blocks[i])
    }
  }

  predicate OneNetwork(blocks: seq<Block>) {
    forall i | 0 <= i < |blocks| :: blocks[i].networkId == blocks[0].networkId
  }

  // ----- Files -----

  /** File names in the ledger directory; only names ending in `.json` are read back. */
  datatype Name = BlockName(height: u64, digest: Digest) | OtherJson(text: string) | Unrelated(text: string)

  datatype File = File(name: Name, bytes: Bytes)

  datatype Error = InvalidBlock | Json | Io

  function NameOf(c: Codec, b: Block): Name {
    BlockName(b.proposal.height, c.BlockHash(b))
  }

  function Load(c: Codec, f: File): Result<Block, Error> {
    if |f.bytes| > MAX_BLOCK_BYTES then Err(InvalidBlock)
    else
      match c.parse(f.bytes)
      case None => Err(Json)
      case Some(b) => if f.name == NameOf(c, b) then Ok(b) else Err(InvalidBlock)
  }

  function JsonFiles(files: seq<File>): seq<File> {
    if files == [] then []
    else (if files[0].name.Unrelated? then [] else [files[0]]) + JsonFiles(files[1..])
  }

  predicate Loads(c: Codec, files: seq<File>, blocks: seq<Block>) {
    && |files| == |blocks|
    && forall i | 0 <= i < |files| :: Load(c, files[i]) == Ok(blocks[i])
  }

  /** What reopening a listing as `blocks` means. */
  ghost predicate Accepts(c: Codec, listing: seq<File>, blocks: seq<Block>) {
    Loads(c, JsonFiles(listing), blocks) && c.ValidChain(blocks) && OneNetwork(blocks)
  }

  /** Reads every block file of a sorted listing, then checks the chain from the first block on. */
  method Open(c: Codec, listing: seq<File>) returns (r: Result<seq<Block>, Error>)
    ensures r.Ok? ==> Accepts(c, listing, r.value)
    ensures r.Err? ==> forall blocks :: !Accepts(c, listing, blocks)
  {
    var loaded := LoadAll(c, JsonFiles(listing));
    if loaded.Err? {
      return Err(loaded.error);
    }
    var blocks := loaded.value;
    var bad := FirstBadBlock(c, blocks);
    if bad < |blocks| {
      BadBlock(c, listing, blocks, bad);
      return Err(InvalidBlock);
    }
    return Ok(blocks);
  }

  method LoadAll(c: Codec, files: seq<File>) returns (r: Result<seq<Block>, Error>)
    ensures r.Ok? ==> Loads(c, files, r.value)
    ensures r.Err? ==> forall blocks :: !Loads(c, files, blocks)
  {
    var blocks: seq<Block> := [];
    for i := 0 to |files|
      invariant Loads(c, files[..i], blocks)
    {
      var loaded := Load(c, files[i]);
      if loaded.Err? {
        return Err(loaded.error);
      }
      blocks := blocks + [loaded.value];
    }
    assert files[..|files|] == files;
    return Ok(blocks);
  }

  /** Walks the chain carrying the previous hash, network id and timestamp. */
  method FirstBadBlock(c: Codec, blocks: seq<Block>) returns (bad: nat)
    ensures bad == |blocks| <==> c.ValidChain(blocks) && OneNetwork(blocks)
    ensures bad < |blocks| ==>
              !c.Follows(blocks[..bad], blocks[bad]) || (bad > 0 && blocks[bad - 1].networkId != blocks[bad].networkId)
    ensures bad <= |blocks|
  {
    hide Codec.ValidChain, Codec.EventsRoot, Codec.Follows, Codec.PreviousOf, OneNetwork;
    var previous: Option<Digest> := None;
    bad := 0;
    EmptyChain(c);
    while bad < |blocks|
      invariant bad <= |blocks|
      invariant previous == c.PreviousOf(blocks[..bad])
      invariant c.ValidChain(blocks[..bad]) && OneNetwork(blocks[..bad])
    {
      var b := blocks[bad];
      FollowsHere(c, blocks, bad);
      if b.proposal.version != 1 || b.proposal.height != bad || b.proposal.previous != previous
         || b.proposal.eventsRoot != c.EventsRoot(b.events)
         || (bad > 0 && blocks[bad - 1].networkId != b.networkId)
         || (bad > 0 && blocks[bad - 1].proposal.timestamp > b.proposal.timestamp) {
        BadMeansInvalid(c, blocks, bad);
        return;
      }
      assert blocks[..bad + 1] == blocks[..bad] + [b];
      ExtendChain(c, blocks[..bad], b);
      previous := Some(c.BlockHash(b));
      bad := bad + 1;
    }
    assert blocks[..|blocks|] == blocks;
  }

  /** What the loop compares, and the hash it carries on. */
  lemma FollowsHere(c: Codec, blocks: seq<Block>, k: nat)
    requires k < |blocks|
    ensures var p := blocks[k].proposal;
            c.Follows(blocks[..k], blocks[k]) <==>
            && p.version == 1 && p.height == k && p.previous == c.PreviousOf(blocks[..k])
            && p.eventsRoot == c.EventsRoot(blocks[k].events)
            && (k > 0 ==> blocks[k - 1].proposal.timestamp <= p.timestamp)
    ensures c.PreviousOf(blocks[..k] + [blocks[k]]) == Some(c.BlockHash(blocks[k]))
  {
    hide Codec.EventsRoot;
  }

  lemma EmptyChain(c: Codec)
    ensures c.ValidChain([]) && OneNetwork([]) && c.PreviousOf([]) == None
  {
  }

  lemma BadMeansInvalid(c: Codec, blocks: seq<Block>, k: nat)
    requires k < |blocks|
    requires !c.Follows(blocks[..k], blocks[k]) || (k > 0 && blocks[k - 1].networkId != blocks[k].networkId)
    ensures !(c.ValidChain(blocks) && OneNetwork(blocks))
  {
    hide Codec.Follows;
  }

  lemma ExtendChain(c: Codec, blocks: seq<Block>, b: Block)
    requires c.ValidChain(blocks) && c.Follows(blocks, b)
    ensures c.ValidChain(blocks + [b])
    ensures OneNetwork(blocks) && (blocks != [] ==> blocks[|blocks| - 1].networkId == b.networkId) ==>
            OneNetwork(blocks + [b])
  {
    var longer := blocks + [b];
    forall i | 0 <= i < |longer|
      ensures c.Follows(longer[..i], longer[i])
    {
      if i < |blocks| {
        assert longer[..i] == blocks[..i];
      } else {
        assert longer[..i] == blocks;
      }
    }
  }

  lemma LoadsOneChain(c: Codec, files: seq<File>, a: seq<Block>, b: seq<Block>)
    requires Loads(c, files, a) && Loads(c, files, b)
    ensures a == b
  {
    forall i | 0 <= i < |files|
      ensures a[i] == b[i]
    {
      assert Load(c, files[i]) == Ok(a[i]);
    }
  }

  lemma BadBlock(c: Codec, listing: seq<File>, blocks: seq<Block>, k: nat)
    requires Loads(c, JsonFiles(listing), blocks) && k < |blocks|
    requires !c.Follows(blocks[..k], blocks[k]) || (k > 0 && blocks[k - 1].networkId != blocks[k].networkId)
    ensures forall other :: !Accepts(c, listing, other)
  {
    forall other | Accepts(c, listing, other)
      ensures false
    {
      LoadsOneChain(c, JsonFiles(listing), blocks, other);
    }
  }

  /** A file loads exactly when it has at most 16 MiB, holds a block, and is named by that block's height and hash. */
  lemma LoadsExactly(c: Codec, f: File, b: Block)
    ensures Load(c, f) == Ok(b) <==>
            && |f.bytes| <= 16 * 1024 * 1024 && c.parse(f.bytes) == Some(b)
            && f.name == BlockName(b.proposal.height, c.h(c.compact(b)))
  {
  }

  /** So a block's file, whatever is written into it, loads as that block or not at all, or shows a collision. */
  lemma AlteredFileIsRefused(c: Codec, b: Block, bytes: Bytes)
    requires c.Lawful()
    ensures var r := Load(c, File(NameOf(c, b), bytes));
            r.Err? || r.value == b || Collision(c.h, (c.compact(r.value), c.compact(b)))
  {
  }

  /** The root in a proposal binds the events: as many events with one root are the same, or show a collision. */
  lemma RootBindsEvents(c: Codec, a: seq<SignedEvent>, b: seq<SignedEvent>) returns (pair: (Bytes, Bytes))
    requires |a| == |b| && c.EventsRoot(a) == c.EventsRoot(b)
    ensures (forall i | 0 <= i < |a| :: c.event(a[i]) == c.event(b[i])) || Collision(c.h, pair)
  {
    var x, y := c.Leaves(a), c.Leaves(b);
    pair := ([], []);
    if x != y {
      Merkle.RootBindsLeaves(c.h, x, y);
      pair := Merkle.RootCollision(c.h, x, y);
    } else if i :| 0 <= i < |a| && c.event(a[i]) != c.event(b[i]) {
      assert x[i] == y[i];
      pair := (c.event(a[i]), c.event(b[i]));
    }
  }

  /** Every event of a chain can be shown to be in its block: its proof verifies against the proposal's root. */
  lemma EveryEventIsProvable(c: Codec, blocks: seq<Block>, k: nat, i: nat)
    requires c.ValidChain(blocks) && k < |blocks| && i < |blocks[k].events|
    ensures var b := blocks[k];
            Merkle.Climb(c.h, c.h(c.event(b.events[i])), i, Merkle.Siblings(c.h, c.Leaves(b.events), i))
            == b.proposal.eventsRoot
  {
    assert c.Follows(blocks[..k], blocks[k]);
    hide Codec.ValidChain, Merkle.Climb, Merkle.Siblings, Merkle.RootOf;
    Merkle.ProofVerifies(c.h, c.Leaves(blocks[k].events), i);
  }

  // ----- Appending -----

  /** Everything `append` demands of a block. It does not compare network ids. */
  predicate Admits(c: Codec, verify: Block -> bool, eventOk: SignedEvent -> bool, blocks: seq<Block>, b: Block) {
    && c.Follows(blocks, b) && verify(b) && (forall e | e in b.events :: eventOk(e))
    && |c.pretty(b)| <= MAX_BLOCK_BYTES
  }

  /** The chain after offering candidates one by one. */
  function Run(c: Codec, verify: Block -> bool, eventOk: SignedEvent -> bool, start: seq<Block>, candidates: seq<Block>)
    : seq<Block>
    decreases |candidates|
  {
    if candidates == [] then start
    else
      var n := |candidates| - 1;
      var blocks := Run(c, verify, eventOk, start, candidates[..n]);
      if Admits(c, verify, eventOk, blocks, candidates[n]) then blocks + [candidates[n]] else blocks
  }

  /** A run only extends the chain, keeps it valid, and adds nothing the engine did not verify. */
  lemma {:induction false} RunExtendsChain(c: Codec, verify: Block -> bool, eventOk: SignedEvent -> bool,
                                           start: seq<Block>, candidates: seq<Block>)
    requires c.ValidChain(start)
    ensures var blocks := Run(c, verify, eventOk, start, candidates);
            && start <= blocks && c.ValidChain(blocks)
            && forall i | |start| <= i < |blocks| ::
                 && verify(blocks[i]) && (forall e | e in blocks[i].events :: eventOk(e))
                 && blocks[i] in candidates && |c.pretty(blocks[i])| <= MAX_BLOCK_BYTES
    decreases |candidates|
  {
    hide Codec.ValidChain, Codec.Follows;
    if candidates != [] {
      var n := |candidates| - 1;
      RunExtendsChain(c, verify, eventOk, start, candidates[..n]);
      var blocks := Run(c, verify, eventOk, start, candidates[..n]);
      if Admits(c, verify, eventOk, blocks, candidates[n]) {
        ExtendChain(c, blocks, candidates[n]);
      }
    }
  }

  // ----- The directory -----

  /** Every block is on disk under its own name. */
  ghost predicate OnDisk(c: Codec, dir: map<Name, Bytes>, blocks: seq<Block>) {
    forall i | 0 <= i < |blocks| ::
      && NameOf(c, blocks[i]) in dir && dir[NameOf(c, blocks[i])] == c.pretty(blocks[i])
      && |c.pretty(blocks[i])| <= MAX_BLOCK_BYTES
  }

  /** And no other file would be read back. */
  ghost predicate Persisted(c: Codec, dir: map<Name, Bytes>, blocks: seq<Block>) {
    && OnDisk(c, dir, blocks)
    && (forall n | n in dir && !n.Unrelated? :: exists i :: 0 <= i < |blocks| && n == NameOf(c, blocks[i]))
  }

  /** Distinct names, block names in ascending order of height. */
  predicate Sorted(files: seq<File>) {
    forall i, j | 0 <= i < j < |files| ::
      && files[i].name != files[j].name
      && (files[i].name.BlockName? && files[j].name.BlockName? ==> files[i].name.height <= files[j].name.height)
  }

  /** A sorted listing of the directory's files. */
  ghost predicate ListingOf(dir: map<Name, Bytes>, listing: seq<File>) {
    && Sorted(listing)
    && (forall f | f in listing :: f.name in dir && dir[f.name] == f.bytes)
    && (forall n | n in dir :: File(n, dir[n]) in listing)
  }

  function FileOf(c: Codec, b: Block): File {
    File(NameOf(c, b), c.pretty(b))
  }

  lemma {:induction false} JsonFilesKept(files: seq<File>)
    ensures forall f :: f in JsonFiles(files) <==> f in files && !f.name.Unrelated?
    ensures Sorted(files) ==> Sorted(JsonFiles(files))
  {
    if files != [] {
      var rest := JsonFiles(files[1..]);
      JsonFilesKept(files[1..]);
      assert files == [files[0]] + files[1..];
      if Sorted(files) {
        SortedTail(files);
        if !files[0].name.Unrelated? { SortedCons(files, rest); }
      }
    }
  }

  lemma SortedTail(files: seq<File>)
    requires files != [] && Sorted(files)
    ensures Sorted(files[1..])
  {
  }

  lemma SortedCons(files: seq<File>, rest: seq<File>)
    requires files != [] && Sorted(files) && Sorted(rest) && forall f | f in rest :: f in files[1..]
    ensures Sorted([files[0]] + rest)
  {
    forall j | 0 <= j < |rest|
      ensures files[0].name != rest[j].name
      ensures files[0].name.BlockName? && rest[j].name.BlockName? ==> files[0].name.height <= rest[j].name.height
    {
      assert rest[j] in files[1..];
    }
  }

  /** Every file is the file of the block at the height in its name. */
  ghost predicate FilesOf(c: Codec, files: seq<File>, blocks: seq<Block>) {
    forall k | 0 <= k < |files| ::
      var name := files[k].name;
      name.BlockName? && name.height < |blocks| && files[k] == FileOf(c, blocks[name.height])
  }

  /** Sorted files that are exactly the files of a chain come in chain order. */
  lemma SortedAsChain(c: Codec, files: seq<File>, blocks: seq<Block>)
    requires c.ValidChain(blocks) && Sorted(files) && FilesOf(c, files, blocks)
    requires forall i | 0 <= i < |blocks| :: FileOf(c, blocks[i]) in files
    ensures |files| == |blocks| && forall i | 0 <= i < |files| :: files[i] == FileOf(c, blocks[i])
  {
    forall k | 0 <= k < |files|
      ensures files[k].name.height == k
    {
      HeightIsPosition(c, files, blocks, k);
    }
    if files != [] { assert files[|files| - 1].name.height < |blocks|; }
    if blocks != [] {
      HeightAt(c, blocks, |blocks| - 1);
      assert FileOf(c, blocks[|blocks| - 1]) in files;
    }
  }

  lemma StrictHeights(c: Codec, files: seq<File>, blocks: seq<Block>, i: nat, j: nat)
    requires Sorted(files) && FilesOf(c, files, blocks) && i < j < |files|
    ensures files[i].name.height < files[j].name.height
  {
  }

  lemma {:induction false} HeightIsPosition(c: Codec, files: seq<File>, blocks: seq<Block>, k: nat)
    requires c.ValidChain(blocks) && Sorted(files) && FilesOf(c, files, blocks)
    requires forall i | 0 <= i < |blocks| :: FileOf(c, blocks[i]) in files
    requires k < |files|
    ensures files[k].name.height == k
    decreases k
  {
    forall j: nat | j < k
      ensures files[j].name.height == j
    {
      HeightIsPosition(c, files, blocks, j);
    }
    var height := files[k].name.height;
    hide Codec.ValidChain;
    if height < k {
      StrictHeights(c, files, blocks, height, k);
    } else if height > k {
      HeightAt(c, blocks, k);
    }
  }

  lemma HeightAt(c: Codec, blocks: seq<Block>, i: nat)
    requires c.ValidChain(blocks) && i < |blocks|
    ensures blocks[i].proposal.height == i
  {
    assert c.Follows(blocks[..i], blocks[i]);
  }

  lemma PrefixOfChain(c: Codec, blocks: seq<Block>, n: nat)
    requires c.ValidChain(blocks) && n <= |blocks|
    ensures c.ValidChain(blocks[..n])
    ensures OneNetwork(blocks) ==> OneNetwork(blocks[..n])
  {
    forall i | 0 <= i < n
      ensures c.Follows(blocks[..n][..i], blocks[..n][i])
    {
      assert blocks[..n][..i] == blocks[..i];
    }
  }

  lemma PersistedFiles(c: Codec, dir: map<Name, Bytes>, blocks: seq<Block>, listing: seq<File>)
    requires c.ValidChain(blocks) && Persisted(c, dir, blocks) && ListingOf(dir, listing)
    ensures FilesOf(c, JsonFiles(listing), blocks)
    ensures forall i | 0 <= i < |blocks| :: FileOf(c, blocks[i]) in JsonFiles(listing)
  {
    var files := JsonFiles(listing);
    JsonFilesKept(listing);
    forall k | 0 <= k < |files|
      ensures files[k].name.BlockName? && files[k].name.height < |blocks|
              && files[k] == FileOf(c, blocks[files[k].name.height])
    {
      assert files[k] in files;
      var i :| 0 <= i < |blocks| && files[k].name == NameOf(c, blocks[i]);
      HeightAt(c, blocks, i);
    }
  }

  lemma OwnFileLoads(c: Codec, b: Block)
    requires c.Lawful() && |c.pretty(b)| <= MAX_BLOCK_BYTES
    ensures Load(c, FileOf(c, b)) == Ok(b)
  {
    assert c.parse(c.pretty(b)) == Some(b);
  }

  lemma FilesLoad(c: Codec, files: seq<File>, blocks: seq<Block>)
    requires c.Lawful() && |files| == |blocks| && forall i | 0 <= i < |files| :: files[i] == FileOf(c, blocks[i])
    requires forall i | 0 <= i < |blocks| :: |c.pretty(blocks[i])| <= MAX_BLOCK_BYTES
    ensures Loads(c, files, blocks)
  {
    hide Load, FileOf, Codec.Lawful;
    forall i | 0 <= i < |files| ensures Load(c, files[i]) == Ok(blocks[i]) {
      OwnFileLoads(c, blocks[i]);
    }
  }

  /** The files of a persisted chain load as that chain, whatever the listing. */
  lemma PersistedLoads(c: Codec, dir: map<Name, Bytes>, blocks: seq<Block>, listing: seq<File>)
    requires c.Lawful() && c.ValidChain(blocks) && Persisted(c, dir, blocks) && ListingOf(dir, listing)
    ensures Loads(c, JsonFiles(listing), blocks)
  {
    var files := JsonFiles(listing);
    assert Sorted(listing) && forall i | 0 <= i < |blocks| :: |c.pretty(blocks[i])| <= MAX_BLOCK_BYTES;
    hide Loads, Load, Codec.ValidChain, Codec.Lawful, Persisted, ListingOf, Sorted, FilesOf, FileOf, JsonFiles;
    JsonFilesKept(listing);
    PersistedFiles(c, dir, blocks, listing);
    SortedAsChain(c, files, blocks);
    FilesLoad(c, files, blocks);
  }

  /** A persisted chain reopens, from any listing of its directory, as itself: exactly when it has one network id. */
  lemma ReopenExactly(c: Codec, dir: map<Name, Bytes>, blocks: seq<Block>, listing: seq<File>)
    requires c.Lawful() && c.ValidChain(blocks) && Persisted(c, dir, blocks) && ListingOf(dir, listing)
    ensures Accepts(c, listing, blocks) <==> OneNetwork(blocks)
    ensures forall other | Accepts(c, listing, other) :: other == blocks
  {
    hide Loads, Codec.ValidChain, Persisted, ListingOf, Codec.Lawful, OneNetwork, JsonFiles;
    PersistedLoads(c, dir, blocks, listing);
    forall other | Accepts(c, listing, other)
      ensures other == blocks
    {
      LoadsOneChain(c, JsonFiles(listing), blocks, other);
    }
  }

  /**
   * Appending two blocks of different networks succeeds and leaves a directory that never reopens:
   * `append` does not compare network ids, but `open` does.
   */
  lemma MixedNetworksCannotReopen(c: Codec, verify: Block -> bool, eventOk: SignedEvent -> bool, a: Block, b: Block,
                                  dir: map<Name, Bytes>, listing: seq<File>)
    requires c.Lawful() && a.networkId != b.networkId
    requires Admits(c, verify, eventOk, [], a) && Admits(c, verify, eventOk, [a], b)
    requires Persisted(c, dir, [a, b]) && ListingOf(dir, listing)
    ensures Run(c, verify, eventOk, [], [a, b]) == [a, b]
    ensures forall blocks :: !Accepts(c, listing, blocks)
  {
    assert [a, b][..1] == [a] && [a][..0] == [];
    assert Run(c, verify, eventOk, [], [a]) == [] + [a] == [a];
    assert [a] + [b] == [a, b];
    RunExtendsChain(c, verify, eventOk, [], [a, b]);
    ReopenExactly(c, dir, [a, b], listing);
    assert [a, b][1].networkId != [a, b][0].networkId;
  }

  // ----- What the tip hash binds -----

  /** Walks two chains back from their tips to the first pair of different blocks. */
  function TipCollision(c: Codec, a: seq<Block>, b: seq<Block>): (Bytes, Bytes)
    decreases |a|
  {
    if a == [] || b == [] then ([], [])
    else
      var x, y := a[|a| - 1], b[|b| - 1];
      if x != y then (c.compact(x), c.compact(y)) else TipCollision(c, a[..|a| - 1], b[..|b| - 1])
  }

  /** Two valid chains with one tip hash are the same chain, or exhibit a collision. */
  lemma {:induction false} TipBindsChain(c: Codec, a: seq<Block>, b: seq<Block>)
    requires c.Lawful() && c.ValidChain(a) && c.ValidChain(b)
    requires c.PreviousOf(a) == c.PreviousOf(b)
    ensures a == b || Collision(c.h, TipCollision(c, a, b))
    decreases |a|
  {
    hide Codec.ValidChain, Codec.Lawful;
    if a == [] {
    } else if a[|a| - 1] != b[|b| - 1] {
      DifferentTips(c, a[|a| - 1], b[|b| - 1]);
    } else {
      SameTip(c, a, b);
      hide Codec.PreviousOf;
      TipBindsChain(c, a[..|a| - 1], b[..|b| - 1]);
      assert a == a[..|a| - 1] + [a[|a| - 1]] && b == b[..|b| - 1] + [b[|b| - 1]];
    }
  }

  lemma DifferentTips(c: Codec, x: Block, y: Block)
    requires c.Lawful() && x != y && c.BlockHash(x) == c.BlockHash(y)
    ensures Collision(c.h, (c.compact(x), c.compact(y)))
  {
  }

  lemma SameTip(c: Codec, a: seq<Block>, b: seq<Block>)
    requires c.ValidChain(a) && c.ValidChain(b) && a != [] && b != [] && a[|a| - 1] == b[|b| - 1]
    ensures c.PreviousOf(a[..|a| - 1]) == c.PreviousOf(b[..|b| - 1])
    ensures c.ValidChain(a[..|a| - 1]) && c.ValidChain(b[..|b| - 1])
  {
    PrefixOfChain(c, a, |a| - 1);
    PrefixOfChain(c, b, |b| - 1);
    assert c.Follows(a[..|a| - 1], a[|a| - 1]) && c.Follows(b[..|b| - 1], b[|b| - 1]);
  }

  // ----- Lost files -----

  /** The files at the kept positions, in order. */
  function Keep(c: Codec, blocks: seq<Block>, kept: seq<nat>): (files: seq<File>)
    requires Subset(kept, |blocks|)
    ensures |files| == |kept|
  {
    seq(|kept|, i requires 0 <= i < |kept| => FileOf(c, blocks[kept[i]]))
  }

  function Select(blocks: seq<Block>, kept: seq<nat>): (selected: seq<Block>)
    requires Subset(kept, |blocks|)
    ensures |selected| == |kept|
  {
    seq(|kept|, i requires 0 <= i < |kept| => blocks[kept[i]])
  }

  lemma {:induction false} AllJson(c: Codec, files: seq<File>)
    requires forall f | f in files :: !f.name.Unrelated?
    ensures JsonFiles(files) == files
  {
    if files != [] {
      assert files == [files[0]] + files[1..];
      AllJson(c, files[1..]);
    }
  }

  predicate Subset(kept: seq<nat>, n: nat) {
    (forall i | 0 <= i < |kept| :: kept[i] < n) && (forall i, j | 0 <= i < j < |kept| :: kept[i] < kept[j])
  }

  predicate IsPrefix(kept: seq<nat>) {
    forall i | 0 <= i < |kept| :: kept[i] == i
  }

  /** Of a reopenable chain, exactly the prefixes reopen: losing the tail goes unnoticed, any other loss does not. */
  lemma SurvivingFilesReopenExactly(c: Codec, blocks: seq<Block>, kept: seq<nat>)
    requires c.Lawful() && c.ValidChain(blocks) && OneNetwork(blocks) && Subset(kept, |blocks|)
    requires forall i | 0 <= i < |blocks| :: |c.pretty(blocks[i])| <= MAX_BLOCK_BYTES
    ensures (exists found :: Accepts(c, Keep(c, blocks, kept), found)) <==> IsPrefix(kept)
    ensures forall found | Accepts(c, Keep(c, blocks, kept), found) :: found <= blocks
  {
    var files, selected := Keep(c, blocks, kept), Select(blocks, kept);
    AllJson(c, files);
    assert Loads(c, files, selected);
    hide Loads;
    forall found | Accepts(c, files, found)
      ensures found == selected
    {
      LoadsOneChain(c, files, selected, found);
    }
    SelectionIsChain(c, blocks, kept);
    assert Accepts(c, files, selected) <==> IsPrefix(kept);
  }

  lemma SelectionIsChain(c: Codec, blocks: seq<Block>, kept: seq<nat>)
    requires c.ValidChain(blocks) && OneNetwork(blocks) && Subset(kept, |blocks|)
    ensures c.ValidChain(Select(blocks, kept)) && OneNetwork(Select(blocks, kept)) <==> IsPrefix(kept)
    ensures IsPrefix(kept) ==> Select(blocks, kept) <= blocks
  {
    var selected := Select(blocks, kept);
    if IsPrefix(kept) {
      assert |kept| <= |blocks| by { if |kept| > 0 { assert kept[|kept| - 1] < |blocks|; } }
      assert selected == blocks[..|kept|];
      PrefixOfChain(c, blocks, |kept|);
    }
    if c.ValidChain(selected) {
      forall i | 0 <= i < |kept|
        ensures kept[i] == i
      {
        HeightAt(c, blocks, kept[i]);
        HeightAt(c, selected, i);
      }
    }
  }

  // ----- Finality along the chain -----

  ghost predicate Final(s: Scheme, b: Bft, history: History, blocks: seq<Block>)
    requires ValidBft(b)
  {
    forall i | 0 <= i < |blocks| :: BftVerified(s, b, blocks[i]) && OnRecord(s, history, b.inner.members, blocks[i])
  }

  /**
   * Two final chains never fork: they carry the same proposal at every common height, and below the
   * last common height the very same block, unless its two versions collide under the hash.
   */
  lemma FinalChainsAgree(c: Codec, s: Scheme, b: Bft, history: History, x: seq<Block>, y: seq<Block>, k: nat)
    requires c.Lawful() && ValidBft(b) && |b.inner.members| == 3 * b.maxFaults + 1
    requires |Equivocators(history, b.inner.members)| <= b.maxFaults
    requires c.ValidChain(x) && c.ValidChain(y) && Final(s, b, history, x) && Final(s, b, history, y)
    requires k < |x| && k < |y|
    ensures x[k].proposal == y[k].proposal
    ensures k + 1 < |x| && k + 1 < |y| ==> x[k] == y[k] || Collision(c.h, (c.compact(x[k]), c.compact(y[k])))
  {
    SameProposal(c, s, b, history, x, y, k);
    if k + 1 < |x| && k + 1 < |y| {
      SameProposal(c, s, b, history, x, y, k + 1);
      assert c.Follows(x[..k + 1], x[k + 1]) && c.Follows(y[..k + 1], y[k + 1]);
    }
  }

  /** The block with its last event written down twice. */
  function EventRepeated(x: Block): Block
    requires x.events != []
  {
    x.(events := x.events + [x.events[|x.events| - 1]])
  }

  lemma RepeatedEventKeepsRoot(c: Codec, events: seq<SignedEvent>)
    requires |events| > 1 && |events| % 2 == 1
    ensures c.EventsRoot(events + [events[|events| - 1]]) == c.EventsRoot(events)
  {
    var more := events + [events[|events| - 1]];
    var leaves, longer := c.Leaves(events), c.Leaves(more);
    assert longer == leaves + [leaves[|leaves| - 1]];
    Merkle.RepeatedLastLeafKeepsRoot(c.h, leaves);
  }

  /**
   * At the tip the proposal is all that agrees, with no equivocator at all: a verified block with an
   * odd number of events above one, and its copy with the last event repeated, have one proposal and
   * one set of signatures, and both are admitted; yet no block follows both, short of a collision.
   */
  lemma TipsCanDiffer(c: Codec, s: Scheme, b: Bft, eventOk: SignedEvent -> bool, blocks: seq<Block>, x: Block)
    requires c.Lawful() && ValidBft(b) && |x.events| > 1 && |x.events| % 2 == 1
    requires Admits(c, z => ValidBft(b) && BftVerified(s, b, z), eventOk, blocks, x)
    requires |c.pretty(EventRepeated(x))| <= MAX_BLOCK_BYTES
    ensures var y := EventRepeated(x);
            && y != x && y.proposal == x.proposal
            && Signers(s, b.inner.members, y) == Signers(s, b.inner.members, x)
            && Admits(c, z => ValidBft(b) && BftVerified(s, b, z), eventOk, blocks, y)
            && forall z | c.Follows(blocks + [x], z) && c.Follows(blocks + [y], z) ::
                 Collision(c.h, (c.compact(x), c.compact(y)))
  {
    var y := EventRepeated(x);
    RepeatedEventKeepsRoot(c, x.events);
    assert c.Follows(blocks, y) by { hide Codec.EventsRoot; }
    assert |y.events| == |x.events| + 1;
    assert forall e | e in y.events :: e in x.events;
    forall z | c.Follows(blocks + [x], z) && c.Follows(blocks + [y], z)
      ensures Collision(c.h, (c.compact(x), c.compact(y)))
    {
      assert c.PreviousOf(blocks + [x]) == c.PreviousOf(blocks + [y]) by { hide Codec.EventsRoot; }
      DifferentTips(c, x, y);
    }
  }

  lemma SameProposal(c: Codec, s: Scheme, b: Bft, history: History, x: seq<Block>, y: seq<Block>, k: nat)
    requires ValidBft(b) && |b.inner.members| == 3 * b.maxFaults + 1
    requires |Equivocators(history, b.inner.members)| <= b.maxFaults
    requires c.ValidChain(x) && c.ValidChain(y) && Final(s, b, history, x) && Final(s, b, history, y)
    requires k < |x| && k < |y|
    ensures x[k].proposal == y[k].proposal
  {
    HeightAt(c, x, k);
    HeightAt(c, y, k);
    hide Codec.ValidChain, BftVerified, OnRecord, Equivocators, ValidBft;
    Agreement(s, b, history, x[k], y[k]);
  }

  // ----- The ledger object -----

  function NextBlock(c: Codec, blocks: seq<Block>, events: seq<SignedEvent>, timestamp: u64, networkId: string): Block
    requires |blocks| <= U64_MAX
  {
    Block(Proposal(1, c.PreviousOf(blocks), |blocks|, timestamp, c.EventsRoot(events)), events, networkId, [])
  }

  /** How writing a file ends; the last is an error after the file has its name. */
  datatype Disk = Written | NotWritten | WrittenThenFailed

  /** The chain in memory, and the blocks whose files were written although their append failed. */
  datatype Files = Files(blocks: seq<Block>, orphans: seq<Block>)

  predicate NameTaken(c: Codec, f: Files, b: Block) {
    exists i | 0 <= i < |f.orphans| :: NameOf(c, f.orphans[i]) == NameOf(c, b)
  }

  /** Offering a block that every check admits: what the chain and the directory then hold. */
  function TryAppend(c: Codec, f: Files, b: Block, disk: Disk): Files {
    if NameTaken(c, f, b) || disk == NotWritten then f
    else if disk == WrittenThenFailed then f.(orphans := f.orphans + [b])
    else f.(blocks := f.blocks + [b])
  }

  /** An orphan followed the chain as it was when its append failed, and has a name of its own. */
  predicate OrphanOk(c: Codec, blocks: seq<Block>, o: Block) {
    var h := o.proposal.height;
    && h <= |blocks| && c.Follows(blocks[..h], o)
    && (h < |blocks| ==> NameOf(c, o) != NameOf(c, blocks[h]))
  }

  predicate Orderly(c: Codec, f: Files) {
    && c.ValidChain(f.blocks)
    && (forall i | 0 <= i < |f.orphans| :: OrphanOk(c, f.blocks, f.orphans[i]))
    && (forall i, j | 0 <= i < j < |f.orphans| :: NameOf(c, f.orphans[i]) != NameOf(c, f.orphans[j]))
  }

  lemma TryAppendKeepsOrderly(c: Codec, f: Files, b: Block, disk: Disk)
    requires Orderly(c, f) && c.Follows(f.blocks, b)
    ensures Orderly(c, TryAppend(c, f, b, disk))
  {
    hide Codec.ValidChain, Codec.Follows;
    if !NameTaken(c, f, b) {
      assert f.blocks[..|f.blocks|] == f.blocks && b.proposal.height == |f.blocks| by { FollowsHeight(c, f.blocks, b); }
      ExtendChain(c, f.blocks, b);
      forall i | 0 <= i < |f.orphans| ensures OrphanOk(c, f.blocks + [b], f.orphans[i]) {
        var h := f.orphans[i].proposal.height;
        assert (f.blocks + [b])[..h] == f.blocks[..h];
      }
    }
  }

  lemma FollowsHeight(c: Codec, blocks: seq<Block>, b: Block)
    requires c.Follows(blocks, b)
    ensures b.proposal.height == |blocks|
  {
  }

  /** The chain that reopening finds, if the files left behind allow one. */
  function Reopened(f: Files): Option<seq<Block>> {
    if f.orphans == [] then Some(f.blocks)
    else if |f.orphans| == 1 && f.orphans[0].proposal.height == |f.blocks| then Some(f.blocks + f.orphans)
    else None
  }

  /**
   * Whatever appends have failed with their file written: reopening finds the chain in memory when
   * there is no orphan, the chain with the orphan when there is one and it is on top, and otherwise
   * fails; and a chain that is found must have one network id.
   */
  lemma OrphansReopenExactly(c: Codec, dir: map<Name, Bytes>, f: Files, listing: seq<File>, found: seq<Block>)
    requires c.Lawful() && Orderly(c, f) && Persisted(c, dir, f.blocks + f.orphans) && ListingOf(dir, listing)
    ensures Accepts(c, listing, found) <==> Reopened(f) == Some(found) && OneNetwork(found)
  {
    hide Codec.ValidChain, Codec.Follows, Codec.Lawful, Accepts, ListingOf, Persisted, OneNetwork;
    if f.orphans == [] {
      assert f.blocks + f.orphans == f.blocks;
      ReopenExactly(c, dir, f.blocks, listing);
    } else {
      var o := f.orphans[0];
      var h := o.proposal.height;
      assert OrphanOk(c, f.blocks, o);
      if h < |f.blocks| {
        HeightAt(c, f.blocks, h);
        TwoStored(c, dir, f, o, f.blocks[h], listing);
      } else if |f.orphans| == 1 {
        assert f.blocks[..h] == f.blocks && f.orphans == [o];
        ExtendChain(c, f.blocks, o);
        ReopenExactly(c, dir, f.blocks + [o], listing);
      } else {
        var p := f.orphans[1];
        assert OrphanOk(c, f.blocks, p);
        if p.proposal.height < |f.blocks| {
          HeightAt(c, f.blocks, p.proposal.height);
          TwoStored(c, dir, f, p, f.blocks[p.proposal.height], listing);
        } else {
          TwoStored(c, dir, f, o, p, listing);
        }
      }
    }
  }

  lemma ReopenedIsOrderly(c: Codec, f: Files)
    requires Orderly(c, f) && Reopened(f).Some?
    ensures Orderly(c, Files(Reopened(f).value, []))
  {
    hide Codec.ValidChain, Codec.Follows;
    if f.orphans != [] {
      var o := f.orphans[0];
      assert OrphanOk(c, f.blocks, o) && f.orphans == [o];
      assert f.blocks[..|f.blocks|] == f.blocks;
      ExtendChain(c, f.blocks, o);
    }
  }

  lemma TwoStored(c: Codec, dir: map<Name, Bytes>, f: Files, x: Block, y: Block, listing: seq<File>)
    requires c.Lawful() && Persisted(c, dir, f.blocks + f.orphans) && ListingOf(dir, listing)
    requires x in f.blocks + f.orphans && y in f.blocks + f.orphans
    requires NameOf(c, x) != NameOf(c, y) && x.proposal.height == y.proposal.height
    ensures forall found :: !Accepts(c, listing, found)
  {
    hide Codec.Lawful, Accepts, ListingOf, NameOf;
    TwoOfOneHeightCannotReopen(c, dir, x, y, listing);
  }

  class Ledger {
    var blocks: seq<Block>
    var dir: map<Name, Bytes>
    ghost var orphans: seq<Block>

    ghost function View(): Files
      reads this
    {
      Files(blocks, orphans)
    }

    /** A valid chain, and on disk exactly its blocks and the orphans. */
    ghost predicate Valid(c: Codec)
      reads this
    {
      Orderly(c, View()) && Persisted(c, dir, blocks + orphans)
    }

    constructor (c: Codec, blocks: seq<Block>, dir: map<Name, Bytes>)
      requires c.ValidChain(blocks) && Persisted(c, dir, blocks)
      ensures Valid(c) && View() == Files(blocks, []) && this.dir == dir
    {
      this.blocks, this.dir, orphans := blocks, dir, [];
      assert blocks + [] == blocks;
    }

    /** Success extends the chain; an error leaves it, and perhaps a file that no block in memory has. */
    method Append(c: Codec, verify: Block -> bool, eventOk: SignedEvent -> bool, b: Block, disk: Disk)
      returns (r: Result<Digest, Error>)
      requires Valid(c)
      modifies this
      ensures Valid(c)
      ensures View() ==
              if Admits(c, verify, eventOk, old(blocks), b) then TryAppend(c, old(View()), b, disk) else old(View())
      ensures r.Ok? <==>
                Admits(c, verify, eventOk, old(blocks), b) && disk == Written && !NameTaken(c, old(View()), b)
      ensures r.Ok? ==> r.value == c.BlockHash(b)
      ensures r == Err(InvalidBlock) <==> !Admits(c, verify, eventOk, old(blocks), b)
    {
      hide Codec.EventsRoot, Codec.ValidChain, Persisted;
      var eventsValid := forall e | e in b.events :: eventOk(e);
      if b.proposal.height != |blocks| || b.proposal.previous != c.PreviousOf(blocks) || b.proposal.version != 1
         || (blocks != [] && b.proposal.timestamp < blocks[|blocks| - 1].proposal.timestamp)
         || b.proposal.eventsRoot != c.EventsRoot(b.events) || !verify(b) || !eventsValid {
        return Err(InvalidBlock);
      }
      var bytes := c.pretty(b);
      if |bytes| > MAX_BLOCK_BYTES {
        return Err(InvalidBlock);
      }
      TakenIsStored(c, dir, View(), b);
      if NameOf(c, b) in dir || disk == NotWritten {
        return Err(Io);
      }
      TryAppendKeepsOrderly(c, View(), b, disk);
      StoreOne(c, dir, View(), b);
      hide Orderly, Codec.Follows;
      dir := dir[NameOf(c, b) := bytes];
      if disk == WrittenThenFailed {
        orphans := orphans + [b];
        return Err(Io);
      }
      blocks := blocks + [b];
      return Ok(c.BlockHash(b));
    }
  }

  /** A name is taken on disk exactly when an orphan has it. */
  lemma TakenIsStored(c: Codec, dir: map<Name, Bytes>, f: Files, b: Block)
    requires Orderly(c, f) && Persisted(c, dir, f.blocks + f.orphans) && c.Follows(f.blocks, b)
    ensures NameOf(c, b) in dir <==> NameTaken(c, f, b)
  {
    var stored := f.blocks + f.orphans;
    hide Codec.ValidChain, Codec.Follows, OrphanOk;
    FollowsHeight(c, f.blocks, b);
    forall i | 0 <= i < |f.blocks| ensures NameOf(c, b) != NameOf(c, f.blocks[i]) { HeightAt(c, f.blocks, i); }
    hide Orderly, NameOf;
    if NameOf(c, b) in dir {
      var i :| 0 <= i < |stored| && NameOf(c, b) == NameOf(c, stored[i]);
      assert stored[i] == f.orphans[i - |f.blocks|];
    }
    if NameTaken(c, f, b) {
      var i :| 0 <= i < |f.orphans| && NameOf(c, f.orphans[i]) == NameOf(c, b);
      assert stored[|f.blocks| + i] == f.orphans[i];
    }
  }

  lemma StoreOne(c: Codec, dir: map<Name, Bytes>, f: Files, b: Block)
    requires Persisted(c, dir, f.blocks + f.orphans) && NameOf(c, b) !in dir && |c.pretty(b)| <= MAX_BLOCK_BYTES
    ensures var dir' := dir[NameOf(c, b) := c.pretty(b)];
            Persisted(c, dir', f.blocks + (f.orphans + [b])) && Persisted(c, dir', f.blocks + [b] + f.orphans)
  {
    var stored, dir' := f.blocks + f.orphans, dir[NameOf(c, b) := c.pretty(b)];
    ExtendDirectory(c, dir, stored, b);
    PersistedSame(c, dir', stored + [b], f.blocks + (f.orphans + [b]));
    PersistedSame(c, dir', stored + [b], f.blocks + [b] + f.orphans);
  }

  lemma PersistedSame(c: Codec, dir: map<Name, Bytes>, xs: seq<Block>, ys: seq<Block>)
    requires Persisted(c, dir, xs) && (forall b :: b in xs <==> b in ys)
    ensures Persisted(c, dir, ys)
  {
    forall i | 0 <= i < |ys|
      ensures NameOf(c, ys[i]) in dir && dir[NameOf(c, ys[i])] == c.pretty(ys[i])
              && |c.pretty(ys[i])| <= MAX_BLOCK_BYTES
    {
      assert ys[i] in xs;
    }
    forall n | n in dir && !n.Unrelated? ensures exists i :: 0 <= i < |ys| && n == NameOf(c, ys[i]) {
      var i :| 0 <= i < |xs| && n == NameOf(c, xs[i]);
      assert xs[i] in ys;
    }
  }

  /** A directory with two blocks of one height never reopens. */
  lemma TwoOfOneHeightCannotReopen(c: Codec, dir: map<Name, Bytes>, x: Block, y: Block, listing: seq<File>)
    requires c.Lawful() && ListingOf(dir, listing)
    requires NameOf(c, x) != NameOf(c, y) && x.proposal.height == y.proposal.height
    requires NameOf(c, x) in dir && dir[NameOf(c, x)] == c.pretty(x)
    requires NameOf(c, y) in dir && dir[NameOf(c, y)] == c.pretty(y)
    ensures forall blocks :: !Accepts(c, listing, blocks)
  {
    forall blocks ensures !Accepts(c, listing, blocks) {
      if Accepts(c, listing, blocks) {
        JsonFilesKept(listing);
        var i := LoadedAt(c, JsonFiles(listing), blocks, x);
        var j := LoadedAt(c, JsonFiles(listing), blocks, y);
        HeightAt(c, blocks, i);
        HeightAt(c, blocks, j);
      }
    }
  }

  lemma LoadedAt(c: Codec, files: seq<File>, blocks: seq<Block>, b: Block) returns (i: nat)
    requires c.Lawful() && Loads(c, files, blocks) && FileOf(c, b) in files
    ensures i < |blocks| && blocks[i] == b
  {
    i :| 0 <= i < |files| && files[i] == FileOf(c, b);
    assert Load(c, files[i]) == Ok(blocks[i]) && c.parse(c.pretty(b)) == Some(b);
  }

  lemma ExtendDirectory(c: Codec, dir: map<Name, Bytes>, blocks: seq<Block>, b: Block)
    requires Persisted(c, dir, blocks) && NameOf(c, b) !in dir && |c.pretty(b)| <= MAX_BLOCK_BYTES
    ensures Persisted(c, dir[NameOf(c, b) := c.pretty(b)], blocks + [b])
  {
    var longer, files := blocks + [b], dir[NameOf(c, b) := c.pretty(b)];
    forall n | n in files && !n.Unrelated?
      ensures exists i :: 0 <= i < |longer| && n == NameOf(c, longer[i])
    {
      if n == NameOf(c, b) {
        assert longer[|blocks|] == b;
      } else {
        var i :| 0 <= i < |blocks| && n == NameOf(c, blocks[i]);
        assert longer[i] == blocks[i];
      }
    }
  }

  /** A block from `NextBlock`, once approved, is admitted by the ledger it was made for. */
  lemma NextBlockIsAdmitted(c: Codec, verify: Block -> bool, eventOk: SignedEvent -> bool, blocks: seq<Block>,
                            events: seq<SignedEvent>, timestamp: u64, networkId: string, approved: Block)
    requires |blocks| <= U64_MAX && c.ValidChain(blocks)
    requires var b := NextBlock(c, blocks, events, timestamp, networkId);
             approved.proposal == b.proposal && approved.events == b.events
    ensures Admits(c, verify, eventOk, blocks, approved) <==>
            && verify(approved) && (forall e | e in events :: eventOk(e)) && |c.pretty(approved)| <= MAX_BLOCK_BYTES
            && (forall i | 0 <= i < |blocks| :: blocks[i].proposal.timestamp <= timestamp)
  {
    if blocks != [] {
      forall i | 0 <= i < |blocks|
        ensures blocks[i].proposal.timestamp <= blocks[|blocks| - 1].proposal.timestamp
      {
        TimestampsRise(c, blocks, i, |blocks| - 1);
      }
    }
  }

  lemma {:induction false} TimestampsRise(c: Codec, blocks: seq<Block>, i: nat, j: nat)
    requires c.ValidChain(blocks) && i <= j < |blocks|
    ensures blocks[i].proposal.timestamp <= blocks[j].proposal.timestamp
    decreases j
  {
    hide Codec.ValidChain;
    if i < j {
      TimestampStep(c, blocks, j);
      TimestampsRise(c, blocks, i, j - 1);
    }
  }

  lemma TimestampStep(c: Codec, blocks: seq<Block>, j: nat)
    requires c.ValidChain(blocks) && 0 < j < |blocks|
    ensures blocks[j - 1].proposal.timestamp <= blocks[j].proposal.timestamp
  {
    hide Codec.EventsRoot, Codec.PreviousOf;
    assert c.Follows(blocks[..j], blocks[j]);
  }

  // ----- The node's own blocks beside a network's -----

  /** The next block of a chain, signed by one identity. */
  function SignedNext(c: Codec, s: Scheme, blocks: seq<Block>, events: seq<SignedEvent>, timestamp: u64,
                      networkId: string, who: Identity): Block
    requires |blocks| <= U64_MAX
  {
    var b := NextBlock(c, blocks, events, timestamp, networkId);
    b.(approvals := [Approval(s.derive(who.publicKey), who.publicKey, s.sign(who.secret, s.encode(b.proposal)))])
  }

  /** The rule of one member, as the node uses it for the network "local". */
  function OwnRule(s: Scheme, networkId: string, who: Identity): QuorumRule {
    QuorumRule(networkId, {s.derive(who.publicKey)}, 1)
  }

  lemma SignedNextVerifies(c: Codec, s: Scheme, blocks: seq<Block>, events: seq<SignedEvent>, timestamp: u64,
                           networkId: string, who: Identity)
    requires |blocks| <= U64_MAX && s.Lawful([who])
    ensures Verified(s, OwnRule(s, networkId, who), SignedNext(c, s, blocks, events, timestamp, networkId, who))
  {
    var b := SignedNext(c, s, blocks, events, timestamp, networkId, who);
    var id := s.derive(who.publicKey);
    assert who in [who] && b.approvals[0] in b.approvals && s.Signs(b.approvals[0], s.encode(b.proposal));
    assert Signers(s, {id}, b) == {id};
  }

  lemma SignedNextFollows(c: Codec, s: Scheme, blocks: seq<Block>, events: seq<SignedEvent>, timestamp: u64,
                          networkId: string, who: Identity)
    requires |blocks| <= U64_MAX && (blocks != [] ==> blocks[|blocks| - 1].proposal.timestamp <= timestamp)
    ensures c.Follows(blocks, SignedNext(c, s, blocks, events, timestamp, networkId, who))
  {
    hide Codec.EventsRoot;
  }

  lemma TwoFilesListed(c: Codec, a: Block, b: Block)
    requires a.proposal.height == 0 && b.proposal.height == 1
    requires |c.pretty(a)| <= MAX_BLOCK_BYTES && |c.pretty(b)| <= MAX_BLOCK_BYTES
    ensures var dir := map[NameOf(c, a) := c.pretty(a), NameOf(c, b) := c.pretty(b)];
            Persisted(c, dir, [a, b]) && ListingOf(dir, [FileOf(c, a), FileOf(c, b)])
  {
    var dir := map[NameOf(c, a) := c.pretty(a), NameOf(c, b) := c.pretty(b)];
    assert NameOf(c, a) != NameOf(c, b);
    forall n | n in dir ensures exists i :: 0 <= i < |[a, b]| && n == NameOf(c, [a, b][i]) {
      assert n == NameOf(c, [a, b][0]) || n == NameOf(c, [a, b][1]);
    }
    forall n | n in dir ensures File(n, dir[n]) in [FileOf(c, a), FileOf(c, b)] {
      assert [FileOf(c, a), FileOf(c, b)][0] == FileOf(c, a) && [FileOf(c, a), FileOf(c, b)][1] == FileOf(c, b);
    }
  }

  /**
   * For every lawful scheme and codec: the node's own task record, approved under its rule for the
   * network "local", and then a block approved under any other network's rule are both appended, and
   * the two files they leave cannot be reopened.
   */
  lemma LocalAndNetworkCannotReopen(
    c: Codec, s: Scheme, self: Identity, other: Identity, networkId: string, eventOk: SignedEvent -> bool,
    record: SignedEvent, events: seq<SignedEvent>, at: u64, later: u64)
    requires c.Lawful() && s.Lawful([self]) && s.Lawful([other]) && networkId != "local" && at <= later
    requires eventOk(record) && forall e | e in events :: eventOk(e)
    requires var a := SignedNext(c, s, [], [record], at, "local", self);
             |c.pretty(a)| <= MAX_BLOCK_BYTES
             && |c.pretty(SignedNext(c, s, [a], events, later, networkId, other))| <= MAX_BLOCK_BYTES
    ensures var a := SignedNext(c, s, [], [record], at, "local", self);
            var b := SignedNext(c, s, [a], events, later, networkId, other);
            && Admits(c, x => Verified(s, OwnRule(s, "local", self), x), eventOk, [], a)
            && Admits(c, x => Verified(s, OwnRule(s, networkId, other), x), eventOk, [a], b)
            && forall blocks :: !Accepts(c, [FileOf(c, a), FileOf(c, b)], blocks)
  {
    var a := SignedNext(c, s, [], [record], at, "local", self);
    var b := SignedNext(c, s, [a], events, later, networkId, other);
    SignedNextVerifies(c, s, [], [record], at, "local", self);
    SignedNextVerifies(c, s, [a], events, later, networkId, other);
    SignedNextFollows(c, s, [], [record], at, "local", self);
    SignedNextFollows(c, s, [a], events, later, networkId, other);
    PairCannotReopen(c, a, b);
    assert a.events == [record] && b.events == events;
    hide Codec.Lawful, Verified, Codec.Follows, Accepts, SignedNext;
  }

  lemma PairCannotReopen(c: Codec, a: Block, b: Block)
    requires c.Lawful() && c.Follows([], a) && c.Follows([a], b) && a.networkId != b.networkId
    requires |c.pretty(a)| <= MAX_BLOCK_BYTES && |c.pretty(b)| <= MAX_BLOCK_BYTES
    ensures forall blocks :: !Accepts(c, [FileOf(c, a), FileOf(c, b)], blocks)
  {
    TwoFilesListed(c, a, b);
    hide Codec.Lawful, Codec.Follows, Accepts, Persisted, ListingOf;
    var dir, silent := map[NameOf(c, a) := c.pretty(a), NameOf(c, b) := c.pretty(b)], (e: SignedEvent) => true;
    MixedNetworksCannotReopen(c, x => true, silent, a, b, dir, [FileOf(c, a), FileOf(c, b)]);
  }
}
