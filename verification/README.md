# Peerless: a verification model

Peerless is a peer-to-peer compute network: nodes exchange signed tasks and content, agree on a
ledger of blocks, route traffic through onion circuits, and let members act anonymously with
one-time credentials. This project models the parts of it that carry protocol state and proves what
they promise, for all inputs, all runs and all interleavings.

| component | files | what is proved of it |
|---|---|---|
| onion circuits | `Words`, `Replay`, `BigEndian`, `OnionSetup`, `OnionCells`, `OnionRoutes`, `OnionNonces`, `OnionTraffic` | the 128-bit replay window refines the plain set of accepted sequences; codecs are canonical; onions of 1 to 3 hops are delivered exactly and at most once, over any loss, replay, reordering, lateness and forgery on every link, in both directions; no key is used twice with one nonce |
| messages over circuits | `Slots`, `Fragments`, `Reassembly` | any-order reassembly among other traffic, and bounds and provenance under hostile fragments |
| ledger | `Merkle`, `Consensus`, `Chain`, `Protocol` | Merkle proofs verify and bind; Byzantine agreement holds for n = 3f + 1 and fails for every larger n; append and reopen agree iff the chain has one network id, and what failed appends leave behind is found or blocks reopening exactly |
| node | `MapSums`, `Tasks`, `Uploads`, `RequestBudget`, `LimitedUploads`, `Revocation`, `Gate`, `Admission`, `VerifiedRuns` | at most one completion per task and results only to their requester; uploads deliver, stay bounded, and fit the rate limit exactly; who may do what after every run, failed writes included, exactly when a restart succeeds and agrees with the running node, and who can be readmitted; accepted runs are backed by distinct executors, and enough honest ones are accepted |
| anonymous authorization | `AnonymousAuth`, `Issuance`, `ScopeKeys`, `Verifier` | no token is redeemed twice, exactly when retention, caller lag and settlement delay fit, down to the calls of the verifier; issuance limits; honest tokens are accepted exactly when no expired scope shares their key |
| content store | `Cas` | any number of concurrent writers with failures and crashes never publish, return or change a partial object, and every put left alone finishes |

`Common` holds the shared vocabulary. Each component comes as pure specification functions with
lemmas over whole runs, and, where the program works in place, as classes, array writers and loops
proved against those functions.

How the model reads:

- Hash functions, signatures, key agreement, the AEAD and serializers are function parameters. What
  a proof needs of them is a `Lawful` predicate: opening undoes sealing, own signatures verify,
  serializers have an inverse. No hash is assumed to be injective: binding results say "equal, or
  here is a collision", and the colliding pair is computed. A forged cell is one that no key of the
  hop it reaches opens.
- Machine integers are bounded types; saturating and checked arithmetic is written out. The 128-bit
  bitmap is a natural number below 2^128 with its own shift, or and truncation.
- Clocks, random values, network answers and I/O outcomes are arguments. Hash-map iteration order is
  an arbitrary choice.
- A handled message is one atomic step, as the request loop calls the handler inline.
- A sender that fails on a later layer has sealed the inner ones under a sequence it uses again; what
  is stated of nonces is of the cells that go out.
- The token library's redemption is taken to reserve the nonce, try the keys of the token's truncated
  id, and then commit or release.

Where a promise does not hold as it stands, the model keeps the program as it is and states when it
does hold, both ways, beside a failing input: `ReopenExactly` with `LocalAndNetworkCannotReopen`,
`RestartExactly` with `TaskAndBlockStopRestart`, `ExpiredCertificateStopsRestart` and
`OrphanThenBlockStopsRestart`, `RestartRevokesExactly` with `OrphanRevokesOnRestart`,
`IssuedIsKeptExactly` with `FailedIssueAdmitsOnRestart`, `StepClosesExactly` with
`RestartReadmitsRevoked`, `Agreement` with `ExtraMembersBreakAgreement`, `ActivateShutsOutExactly` with
`RevokedIssuerReadmitted`, `EnforceShutsOutExactly` with `ReinstalledCertificateReadmits`,
`MajorityIsUnique` with `MinorityIsAmbiguous`, `RedeemsOnceExactly` with
`ForgottenNonceRedeemsTwice` and `LateSettlementRedeemsTwice`, `TransferFitsExactly`, and
`SweepServesExactly` with `SharedKeyIsLost` (the verifier's sweep is described as leaving live keys alone; it does so for keys that share a
truncated id, not for a key shared by two scopes). Two conditions are one-way, with an input that shows
they are needed: a clock that never goes back in `CountedUpToTheLimit`, with
`BackwardClockExceedsTheLimit`, and equal lengths in `RootBindsLeaves`, with
`RepeatedLastLeafKeepsRoot`, which is also why the tips of two final chains can differ
(`TipsCanDiffer`).

`dafny verify dfyconfig.toml` checks the whole project.

## Model

| member | source | states |
|---|---|---|
| `Replay.CheckDecidesTheSet` | crates/peerless-onion-protocol/src/lib.rs:732-755 | the window answers exactly as the plain set of accepted sequences would: fresh iff not accepted and within +64/-127 of the newest (only 0 at first), replayed iff accepted and still covered |
| `Replay.CommitAddsToTheSet` | crates/peerless-onion-protocol/src/lib.rs:757-775 | shifting, truncating to 128 bits and or-ing a bit is adding the sequence to the represented set, for a small step forward, a jump past the window, and a step back |
| `Replay.WindowAfter` | crates/peerless-onion-protocol/src/lib.rs:731-775 | after every run of check-then-commit the pair (highest, bitmap) represents the set accepted by a window-free run |
| `Replay.NoSequenceAcceptedTwice` | crates/peerless-onion-protocol/src/lib.rs:731-775 | on every run, two accepted cells have different sequences |
| `Replay.RejectedLeaveNoTrace` | crates/peerless-onion-protocol/src/lib.rs:731-775 | deleting the rejected cells from a run changes neither the window nor the accepted set |
| `Replay.ReplayWindow.Test` | crates/peerless-onion-protocol/src/lib.rs:732-755 | reading the fields in place gives the verdict of the represented set |
| `Replay.ReplayWindow.Record` | crates/peerless-onion-protocol/src/lib.rs:757-775 | updating the fields in place adds exactly one sequence to the represented set |
| `BigEndian.FirstByteWeighsMost` | crates/peerless-onion-protocol/src/lib.rs:934-957 | integers on the wire are big-endian: the first byte weighs most |
| `OnionSetup.WriteRequest` | crates/peerless-onion-protocol/src/lib.rs:398-413 | filling the 128-byte array field by field yields the request encoding, reserved bytes zero |
| `OnionSetup.WriteResponse` | crates/peerless-onion-protocol/src/lib.rs:437-456 | filling the 160-byte array field by field yields the response encoding |
| `OnionSetup.RequestParsesBack` | crates/peerless-onion-protocol/src/lib.rs:398-435 | parsing undoes encoding for every setup request |
| `OnionSetup.ParsedRequestEncodesBack` | crates/peerless-onion-protocol/src/lib.rs:415-435 | every accepted request byte string is the encoding of what it parses to: the form is canonical |
| `OnionSetup.ResponseParsesBack` | crates/peerless-onion-protocol/src/lib.rs:437-484 | parsing undoes encoding for every setup response |
| `OnionSetup.ParsedResponseEncodesBack` | crates/peerless-onion-protocol/src/lib.rs:458-484 | every accepted response byte string is the encoding of what it parses to |
| `OnionSetup.TranscriptIsInjective` | crates/peerless-onion-protocol/src/lib.rs:486-503 | two setups have one transcript iff context and all three keys agree |
| `OnionSetup.HonestSetupAgrees` | crates/peerless-onion-protocol/src/lib.rs:272-380 | an undisturbed exchange gives initiator and relay the same keys, scoped to the requested circuit, hop, epoch and expiry; the relay refuses iff a shared secret is not contributory |
| `OnionSetup.WritePrologue` | crates/peerless-onion-protocol/src/lib.rs:398-406 | both setup writers fill the same 40-byte prologue |
| `OnionSetup.FinishAcceptsExactly` | crates/peerless-onion-protocol/src/lib.rs:297-334 | the initiator accepts a byte string iff, before expiry, it is the one canonical response of some responder key with contributory shares and the matching confirmation tag |
| `OnionSetup.AcceptsExactly` | crates/peerless-onion-protocol/src/lib.rs:339-380 | a relay accepts iff the request is well formed, before its expiry, for one of three hops and for this very relay, with both shares contributory; each refusal has its own error; the answer carries a tag over the whole transcript under the confirmation key derived from both shares |
| `OnionSetup.StartsExactly` | crates/peerless-onion-protocol/src/lib.rs:272-296 | a setup starts iff it is before its expiry and for one of three hops, and asks for that context and relay |
| `OnionSetup.SecretsAreApart` | crates/peerless-onion-protocol/src/lib.rs:505-533 | the two keys, the two nonce prefixes and the confirmation key are the derived bytes in order, none used twice |
| `OnionCells.WriteHeader` | crates/peerless-onion-protocol/src/lib.rs:585-602 | filling the 50-byte header array yields the header encoding |
| `OnionCells.HeaderParsesBack` | crates/peerless-onion-protocol/src/lib.rs:585-629 | a header with its ciphertext and zero padding parses to itself |
| `OnionCells.ParsedHeaderEncodesBack` | crates/peerless-onion-protocol/src/lib.rs:604-629 | every accepted cell is the encoding of the header it parses to, a ciphertext of at least 19 bytes, and nothing but zeros |
| `OnionCells.FromCompact` | crates/peerless-onion-protocol/src/lib.rs:557-567 | a compact layer of at least 69 bytes padded with zeros to 1,024 bytes, with a parsable header |
| `OnionCells.SealedCell` | crates/peerless-onion-protocol/src/lib.rs:557-574 | a layer of at most 955 bytes seals; its cell parses to the very header sealed under, compacts back to the sealed bytes, and decrypts to the layer plaintext |
| `OnionCells.SealedWith` | crates/peerless-onion-protocol/src/lib.rs:631-662 | a layer is sealed under the direction's own key, a nonce made of the direction's prefix and the sequence, with the rest of the cell as associated data |
| `OnionCells.NonceIsItsSequence` | crates/peerless-onion-protocol/src/lib.rs:235-246 | nonces have 12 bytes, and for one hop and direction two sequences have one nonce iff they are equal; forward and reverse have their own keys |
| `OnionCells.ReadLayerIsCanonical` | crates/peerless-onion-protocol/src/lib.rs:902-918 | every layer plaintext that is accepted is the encoding of its type, exact length and data |
| `OnionCells.WireCodes` | crates/peerless-onion-protocol/src/lib.rs:79-122 | which byte stands for which direction and cell type, and no other byte for any |
| `OnionCells.OpenUndoesSeal` | crates/peerless-onion-protocol/src/lib.rs:631-662 | for the hop holding the keys, before expiry, opening a sealed layer yields its content and commits the sequence when the window is fresh, and otherwise yields the window error and leaves the window alone |
| `OnionCells.LayerReadsBack` | crates/peerless-onion-protocol/src/lib.rs:902-918 | a layer plaintext reads back as an inner cell for type 0 and as its typed payload otherwise, with the declared length checked |
| `OnionCells.ForeignCellIsRefused` | crates/peerless-onion-protocol/src/lib.rs:872-890 | a cell sealed for another circuit, epoch, expiry or direction is refused as out of scope, an expired one as expired, and the window stays as it is |
| `OnionRoutes.OnionSize` | crates/peerless-onion-protocol/src/lib.rs:692-708 | nesting costs 69 bytes a hop, sealing fails iff the innermost payload overflows a layer, and only with PayloadTooLarge |
| `OnionRoutes.SealSucceedsExactly` | crates/peerless-onion-protocol/src/lib.rs:40-48 | for 1 to 3 hops sealing succeeds iff the payload is within max_payload_for_hops and the counter is below the 64-bit maximum; which error comes otherwise |
| `OnionRoutes.PeelDelivers` | crates/peerless-onion-protocol/src/lib.rs:872-920 | every sealed onion peels hop by hop to the exact type and payload at the last hop, and exactly the hops on the path advance their windows |
| `OnionRoutes.TransitIsWireCell` | crates/peerless-onion-protocol/src/lib.rs:903-918 | what a transit hop passes on is again a well-formed 1,024-byte cell |
| `OnionRoutes.ReverseIsOnion` | crates/peerless-onion-protocol/src/lib.rs:818-850 | sealing at the last relay and wrapping cell by cell builds the same bytes as sealing all layers at once |
| `OnionRoutes.ReversePathDelivers` | crates/peerless-onion-protocol/src/lib.rs:805-850 | an answer exists iff it fits the route, and peels back to the exact answer at the initiator |
| `OnionRoutes.NewSender` | crates/peerless-onion-protocol/src/lib.rs:673-690 | a sender exists iff there are 1 to 3 keys of one circuit, epoch and expiry; which error comes otherwise; numbering starts at 0 |
| `OnionRoutes.SealLayers` | crates/peerless-onion-protocol/src/lib.rs:692-708 | the loop from the last hop to the first builds the recursively specified onion |
| `OnionRoutes.CircuitSender.Seal` | crates/peerless-onion-protocol/src/lib.rs:692-714 | sealing uses the current sequence, succeeds iff the payload fits and the counter is not spent, and moves the counter by one only then |
| `OnionRoutes.OpenInPlace` | crates/peerless-onion-protocol/src/lib.rs:872-920 | opening against a window held in place is the specified opening; the accepted set grows by the sequence iff the layer opened |
| `OnionRoutes.HopReceiver.Open` | crates/peerless-onion-protocol/src/lib.rs:861-870 | an opened cell has a sequence never accepted before, and a rejected one changes nothing |
| `OnionRoutes.HopDuplex.Open` | crates/peerless-onion-protocol/src/lib.rs:805-817 | opening in one direction leaves the other direction and both counters untouched |
| `OnionRoutes.HopDuplex.AddLayer` | crates/peerless-onion-protocol/src/lib.rs:831-850 | a layer is sealed at the direction's own counter, which moves by one iff sealing succeeds |
| `OnionRoutes.HopDuplex.SealTerminal` | crates/peerless-onion-protocol/src/lib.rs:818-826 | the terminal answer is the one-hop reverse cell at the current counter |
| `OnionRoutes.HopDuplex.Wrap` | crates/peerless-onion-protocol/src/lib.rs:827-830 | wrapping a reverse cell of the hops behind gives the reverse cell of the longer path |
| `OnionRoutes.ReverseCell` | crates/peerless-onion-protocol/src/lib.rs:818-850 | every reverse cell built by sealing and wrapping is a well-formed 1,024-byte cell |
| `OnionNonces.SenderNeverReusesNonce` | crates/peerless-onion-protocol/src/lib.rs:692-714 | over every run of a sender, failures included, the layers of two cells at a hop are sealed under that hop's key with different nonces |
| `OnionNonces.SentInOrder` | crates/peerless-onion-protocol/src/lib.rs:692-714 | the cells of a run carry the sequences 0, 1, 2 and so on, each the onion of its own message |
| `OnionNonces.RelayNeverReusesNonce` | crates/peerless-onion-protocol/src/lib.rs:831-850 | over every run of a relay that adds layers in both directions, no two layers of one direction are sealed with one nonce |
| `Slots.ChunksRebuild` | crates/peerless-onion-protocol/src/lib.rs:975-1003 | cutting bytes into chunks of any positive size loses nothing |
| `Slots.Join` | crates/peerless-onion-protocol/src/lib.rs:1060-1063 | collecting the slots in a loop is their index-order concatenation |
| `Slots.FillOneSlot` | crates/peerless-onion-protocol/src/lib.rs:1036-1049 | filling an empty slot adds exactly its bytes to the filled total |
| `Fragments.DecodeUndoesEncode` | crates/peerless-onion-protocol/src/lib.rs:934-972 | encoding succeeds iff the fragment is valid, fits one terminal layer, and decodes back |
| `Fragments.DecodesExactly` | crates/peerless-onion-protocol/src/lib.rs:944-973 | a byte string is a fragment iff it has 28 to 955 bytes, an index below a count of at most 1,024, a total of at most 512 KiB, and bytes unless it is all of an empty message |
| `Fragments.EncodeUndoesDecode` | crates/peerless-onion-protocol/src/lib.rs:945-972 | every decodable byte string is the encoding of what it decodes to |
| `Fragments.FragmentsRebuildMessage` | crates/peerless-onion-protocol/src/lib.rs:975-1003 | splitting succeeds iff the message is at most 512 KiB, gives 1 to 566 valid fragments numbered in order, and their bodies concatenate to the message |
| `Fragments.PushKeepsTable` | crates/peerless-onion-protocol/src/lib.rs:1018-1066 | any fragment, valid or hostile, leaves at most 16 entries, each with its counter equal to the filled bytes and within its declared total |
| `Fragments.ReturnedMessageIsSourced` | crates/peerless-onion-protocol/src/lib.rs:1018-1066 | on any run from empty, a returned message has its declared length and is the index-order concatenation of stored fragments of that one message and shape |
| `Fragments.TableAfter` | crates/peerless-onion-protocol/src/lib.rs:1018-1066 | the table bounds hold after every run of fragments |
| `Fragments.RunKeepsSources` | crates/peerless-onion-protocol/src/lib.rs:1018-1066 | on every run each filled slot holds the bytes of a stored fragment of that message, index and shape |
| `Reassembly.ExpectedPush` | crates/peerless-onion-protocol/src/lib.rs:1018-1066 | a missing fragment is stored, and only the last missing one returns the message |
| `Reassembly.OtherPush` | crates/peerless-onion-protocol/src/lib.rs:1018-1066 | fragments of other ids do not touch this message's progress |
| `Reassembly.AnyOrderReassembles` | crates/peerless-onion-protocol/src/lib.rs:1005-1066 | a split message sent in any order among arbitrary fragments of up to 15 other ids comes back unchanged, exactly once, at its last fragment, and leaves no entry |
| `Reassembly.Reassembler.Accept` | crates/peerless-onion-protocol/src/lib.rs:1018-1066 | the in-place push, error paths included, is the specified push |
| `Reassembly.RunProgress` | crates/peerless-onion-protocol/src/lib.rs:1018-1066 | at every point of an interleaved run exactly the fragments not yet arrived are missing |
| `Reassembly.Reassembler.Fill` | crates/peerless-onion-protocol/src/lib.rs:1036-1066 | storing into a found entry, completion and both error paths included, is the specified push |
| `Merkle.MerkleRoot` | crates/peerless-ledger/src/lib.rs:512-528 | the level-by-level loop with odd-level duplication computes the recursive root, the empty list included |
| `Merkle.Prove` | crates/peerless-ledger/src/lib.rs:530-550 | a proof exists iff the index is in range, and then it climbs from that leaf to the root |
| `Merkle.Verify` | crates/peerless-ledger/src/lib.rs:135-149 | the verification loop accepts iff climbing the siblings from the leaf gives the root |
| `Merkle.ProofVerifies` | crates/peerless-ledger/src/lib.rs:136-148 | every constructed proof verifies, for every list length and position |
| `Merkle.VerifyingProofIsGenuine` | crates/peerless-ledger/src/lib.rs:136-148 | a verifying proof of the right length is the real proof of the real leaf, or a computed pair of inputs collides |
| `Merkle.RootBindsLeaves` | crates/peerless-ledger/src/lib.rs:512-528 | equal-length leaf lists with one root are equal, or a computed pair of inputs collides |
| `Merkle.RepeatedLastLeafKeepsRoot` | crates/peerless-ledger/src/lib.rs:516-524 | equal length is needed: an odd list with its last leaf repeated has the same root |
| `Merkle.Raise` | crates/peerless-ledger/src/lib.rs:516-527 | one level of the loop duplicates an odd last node and hashes adjacent pairs |
| `Consensus.VerifyQuorum` | crates/peerless-ledger/src/lib.rs:356-376 | the loop accepts iff network ids match and at least a quorum of distinct members validly signed the proposal |
| `Consensus.NewQuorumAdmits` | crates/peerless-ledger/src/lib.rs:318-330 | a quorum rule exists iff the quorum is between one and all members |
| `Consensus.FinalizeQuorum` | crates/peerless-ledger/src/lib.rs:334-355 | finalizing keeps the proposal and collects one valid signature per distinct approving member; it succeeds iff the result verifies |
| `Consensus.CollectApprovals` | crates/peerless-ledger/src/lib.rs:340-350 | the loop collects exactly one valid signature for each distinct approving member |
| `Consensus.NewBftAdmits` | crates/peerless-ledger/src/lib.rs:268-287 | construction admits a membership iff n >= 3f + 1, saturating arithmetic included |
| `Consensus.VerifyBft` | crates/peerless-ledger/src/lib.rs:308-315 | acceptance iff the leader is named among the approvals and the quorum rule holds |
| `Consensus.EveryMemberLeadsOnce` | crates/peerless-ledger/src/lib.rs:288-290 | every member leads exactly one of any as many consecutive heights as there are members |
| `Consensus.SameLeaderExactly` | crates/peerless-ledger/src/lib.rs:288-290 | two heights have one leader iff they are congruent modulo the number of members |
| `Consensus.LeadsExactly` | crates/peerless-ledger/src/lib.rs:288-290 | the member at a position leads exactly the heights that leave that remainder |
| `Consensus.FinalizeBft` | crates/peerless-ledger/src/lib.rs:298-307 | fails exactly for a missing leader or too few approvers; a success verifies and its leader validly signed |
| `Consensus.VerifiedBlocksShareSigners` | crates/peerless-ledger/src/lib.rs:308-315 | any two verified blocks share at least 4f + 2 - n validly signing members |
| `Consensus.DivergenceNeedsEquivocators` | crates/peerless-ledger/src/lib.rs:308-315 | two verified blocks with different proposals at one height need that many members on record for both |
| `Consensus.Agreement` | crates/peerless-ledger/src/lib.rs:268-315 | with n = 3f + 1 and at most f equivocators, verified blocks of one height have one proposal |
| `Consensus.ExtraMembersBreakAgreement` | crates/peerless-ledger/src/lib.rs:274-287 | for every larger n that construction admits, two different verified proposals at one height exist with at most f equivocators |
| `Consensus.QuorumsOverlap` | crates/peerless-ledger/src/lib.rs:356-376 | two sets of members overlap in at least |a| + |b| - n |
| `Chain.Open` | crates/peerless-ledger/src/lib.rs:384-430 | reopening returns blocks iff the files load under their names and sizes and form a one-network chain, and those blocks |
| `Chain.LoadAll` | crates/peerless-ledger/src/lib.rs:387-409 | the reading loop loads every file in order, or some file does not load |
| `Chain.LoadsExactly` | crates/peerless-ledger/src/lib.rs:387-409 | a file loads as a block iff it has at most 16 MiB, parses to it, and is named by its height and hash |
| `Chain.AlteredFileIsRefused` | crates/peerless-ledger/src/lib.rs:387-409 | a block's file, whatever is written into it, loads as that block, or not at all, or shows a collision |
| `Chain.RootBindsEvents` | crates/peerless-ledger/src/lib.rs:474-486 | as many events with one root are the same encodings, or a computed pair collides |
| `Chain.EveryEventIsProvable` | crates/peerless-ledger/src/lib.rs:530-550 | every event of a valid chain has a proof that climbs to the root in its proposal |
| `Chain.FirstBadBlock` | crates/peerless-ledger/src/lib.rs:410-429 | the checking loop stops at the first block that breaks height, link, root, timestamp or network continuity, and nowhere iff there is none |
| `Chain.RunExtendsChain` | crates/peerless-ledger/src/lib.rs:456-503 | any run of appends only extends the chain, keeps it valid, and adds only verified blocks of bounded size |
| `Chain.ReopenExactly` | crates/peerless-ledger/src/lib.rs:384-430 | a persisted chain reopens, from any listing of its directory, as itself iff it has one network id, and never as anything else |
| `Chain.TipBindsChain` | crates/peerless-ledger/src/lib.rs:114-116 | valid chains with one tip hash are one chain, or a computed pair of inputs collides |
| `Chain.SurvivingFilesReopenExactly` | crates/peerless-ledger/src/lib.rs:384-430 | a sub-collection of a chain's files reopens iff it is a prefix, and then as a prefix |
| `Chain.FinalChainsAgree` | crates/peerless-ledger/src/lib.rs:268-315 | with n = 3f + 1 and at most f equivocators two final chains have the same proposal at every common height, and below the tip the same block or a collision |
| `Chain.NextBlockIsAdmitted` | crates/peerless-ledger/src/lib.rs:432-455 | an approved next block is admitted iff it verifies, its events verify, it is not oversized and its timestamp is not before any earlier one |
| `Chain.TimestampsRise` | crates/peerless-ledger/src/lib.rs:410-429 | timestamps of a valid chain never fall |
| `Chain.PersistedLoads` | crates/peerless-ledger/src/lib.rs:384-409 | the files of a persisted chain load as that chain, from every listing of the directory |
| `Chain.MixedNetworksCannotReopen` | crates/peerless-ledger/src/lib.rs:456-503 | appending blocks of two networks succeeds and leaves a directory that cannot be reopened |
| `Chain.LocalAndNetworkCannotReopen` | crates/peerless-node/src/lib.rs:1463-1473 | for every lawful scheme and codec, the node's own record under its rule for the network "local" and then a block under any other network's rule are both admitted, and the two files they leave cannot be reopened |
| `Chain.Ledger.Append` | crates/peerless-ledger/src/lib.rs:456-503 | success iff the block is admitted, no earlier failed append left a file of its name, and the write ends well; the chain grows only then; an error after the file has its name leaves that file and the chain as it was |
| `Chain.OrphansReopenExactly` | crates/peerless-ledger/src/lib.rs:384-430 | however many appends failed after their files were written: reopening finds the chain in memory if there is no such file, that chain and the one block if there is one and it is on top, and otherwise nothing; and only if what is found has one network id |
| `Chain.TryAppendKeepsOrderly` | crates/peerless-ledger/src/lib.rs:456-503 | every append, failed or not, keeps the chain valid and each block left behind a follower of the chain it was offered to, under a name of its own |
| `Chain.TipsCanDiffer` | crates/peerless-ledger/src/lib.rs:268-315 | the limit of chain agreement: two chains final under one rule and one set of members can have different last blocks of one proposal, one with its last event repeated, since both lists have one root |
| `Chain.TwoOfOneHeightCannotReopen` | crates/peerless-ledger/src/lib.rs:384-430 | a directory with two blocks of one height never reopens |
| `Tasks.StepKeepsSafe` | crates/peerless-node/src/lib.rs:1117-1142 | every offer, commit, cancel or measurement, from anyone at any clock, keeps at most one reservation, pending and completed ids disjoint, and completed results unchanged |
| `Tasks.RunKeepsSafe` | crates/peerless-node/src/lib.rs:1117-1142 | the same holds at every point of every run |
| `Tasks.RunRetains` | crates/peerless-node/src/lib.rs:1356-1462 | between any two points of a run completed results only accumulate |
| `Tasks.CompletesAtMostOnce` | crates/peerless-node/src/lib.rs:1356-1462 | no task id completes twice in a run |
| `Tasks.ResultIsStored` | crates/peerless-node/src/lib.rs:1356-1462 | a result handed out is the one stored under its id for its requester |
| `Tasks.OneResultPerTask` | crates/peerless-node/src/lib.rs:1356-1462 | all results ever handed out for one id are one record, to one signer |
| `Tasks.ResultsGoToTheirRequester` | crates/peerless-node/src/lib.rs:1251-1462 | a result goes only to the signer whose own accepted offer named the same id, component and input, or to the recorded requester of an earlier life |
| `Tasks.ReservationFits` | crates/peerless-node/src/lib.rs:1189-1324 | an accepted reservation and all others fit the measured memory less the host reserve |
| `Tasks.OnlyRequesterOrClockReleases` | crates/peerless-node/src/lib.rs:1117-1142 | a reservation disappears or changes only by its own requester or by expiry |
| `Tasks.Executor.Capability` | crates/peerless-node/src/lib.rs:1189-1231 | measuring drops exactly the expired reservations and returns the exact sum of limits and number of the rest |
| `Tasks.Executor.AcceptOffer` | crates/peerless-node/src/lib.rs:1251-1324 | the in-place offer handler, every refusal included, is the specified step and keeps the table safe |
| `Tasks.Executor.Execute` | crates/peerless-node/src/lib.rs:1356-1462 | the in-place commit handler is the specified step, keeps the table safe and every completed result |
| `Tasks.Executor.CancelTask` | crates/peerless-node/src/lib.rs:1123-1142 | the in-place cancel handler is the specified step |
| `Tasks.OfferKeepsSafe` | crates/peerless-node/src/lib.rs:1251-1324 | an offer keeps the table safe and the results as they are; the only reservation it makes is the offered one, when no live one stands and its id is not completed |
| `Tasks.OfferAcceptedExactly` | crates/peerless-node/src/lib.rs:1251-1324 | an offer is accepted iff it is its requester's own, its lease is ahead and its content here, and it repeats a completed or standing one of the same requester and task, or nothing stands and the host, measured less than 30 seconds ago, has the memory beside 1 GiB, the storage, the runtime and the time |
| `Tasks.CommitKeepsSafe` | crates/peerless-node/src/lib.rs:1356-1462 | a commit keeps the table safe; it frees at most its own reservation and stores at most one new result, for the task its signer had reserved, whose reservation is then gone |
| `Tasks.CommitAnswersExactly` | crates/peerless-node/src/lib.rs:1356-1462 | a commit is answered with a record iff its signer is the requester of the completed task, or of a reservation within lease and deadline whose run yields one; the record names task, executor, component, input and output |
| `Tasks.RepeatedCommitAnswers` | crates/peerless-node/src/lib.rs:1356-1462 | a requester who commits again is given the same record, whatever others send in between |
| `Tasks.CancelKeepsSafe` | crates/peerless-node/src/lib.rs:1123-1142 | a cancel leaves completed results alone |
| `Tasks.CancelExactly` | crates/peerless-node/src/lib.rs:1123-1142 | cancelling frees exactly the requester's own reservation |
| `Tasks.AcceptedIsHeld` | crates/peerless-node/src/lib.rs:1251-1324 | an accepted offer is already completed for its signer or now reserved for it, with that very task |
| `Tasks.ReservationSurvives` | crates/peerless-node/src/lib.rs:1117-1142 | whatever others send and measure before its lease ends, a reservation stays as it is |
| `Tasks.ReservedTaskRuns` | crates/peerless-node/src/lib.rs:1356-1462 | after any such traffic a commit in time by the requester yields and stores the record of that very task |
| `Uploads.BufferBound` | crates/peerless-node/src/lib.rs:1022-1116 | a session buffers at most 65,535 bytes more than it declared |
| `Uploads.HandleKeepsBounds` | crates/peerless-node/src/lib.rs:1014-1116 | any message keeps at most 4 sessions, at most 512 MiB declared in all, well-formed sessions and a store whose bytes hash to their ids |
| `Uploads.TrafficKeepsSession` | crates/peerless-node/src/lib.rs:1014-1116 | any traffic on other (signer, id) keys leaves a session as it is |
| `Uploads.EveryPieceLands` | crates/peerless-node/src/lib.rs:1059-1085 | whatever other keys do in between, every piece of an open upload is acknowledged with its own hash |
| `Uploads.AdmittedUploadDelivers` | crates/peerless-node/src/lib.rs:1022-1116 | an admitted upload, interleaved with any other traffic, stores exactly the sent bytes (or a collision is shown) and removes its session |
| `Uploads.Receiver.Receive` | crates/peerless-node/src/lib.rs:1014-1116 | the in-place handler, refusals included, is the specified step and keeps the bounds |
| `Uploads.Receiver.Begin` | crates/peerless-node/src/lib.rs:1022-1058 | opening a session in place, with the slot and byte budget computed by a loop over sessions, is the specified step |
| `Uploads.Receiver.Fill` | crates/peerless-node/src/lib.rs:1059-1085 | storing a piece in place is the specified step |
| `Uploads.PieceTakenExactly` | crates/peerless-node/src/lib.rs:1059-1085 | a piece is taken iff its session is open, its bytes have the hash it names and fit a chunk, and its index is in range; it fills that slot and nothing else |
| `Uploads.StoredContentIsKept` | crates/peerless-node/src/lib.rs:1014-1116 | whatever is sent by anyone, stored content stays as it is |
| `Uploads.Receiver.Close` | crates/peerless-node/src/lib.rs:1086-1116 | completing in place joins, checks and stores the bytes as specified |
| `Uploads.Transfer` | crates/peerless-node/src/lib.rs:1901-1963 | the sender's loop succeeds iff the bytes match the id and the transfer is small or its start admitted; then the receiver holds the content and no session, otherwise nothing changed |
| `Uploads.SendPieces` | crates/peerless-node/src/lib.rs:1938-1963 | the piece loop over an open session always completes and leaves the content stored |
| `Uploads.StartOpens` | crates/peerless-node/src/lib.rs:1022-1058 | a start opens an empty session of the declared size iff the budget admits it, and otherwise changes nothing |
| `Uploads.PieceFills` | crates/peerless-node/src/lib.rs:1059-1085 | the next piece is acknowledged by its hash and advances the session by one chunk |
| `Uploads.FinishStores` | crates/peerless-node/src/lib.rs:1086-1116 | finishing a full session stores the joined bytes and removes the session |
| `Uploads.TrafficKeepsBounds` | crates/peerless-node/src/lib.rs:1014-1116 | the bounds hold after any traffic |
| `Uploads.Receiver.Keep` | crates/peerless-node/src/lib.rs:1014-1021 | direct content is stored iff it hashes to its id |
| `Uploads.Receiver.ReceiveAll` | crates/peerless-node/src/lib.rs:1014-1116 | handling a list of messages in place is the specified run and keeps the bounds |
| `Uploads.RefusalClosesSession` | crates/peerless-node/src/lib.rs:1014-1116 | a refused piece or finish closes its own session and stores nothing; a refused start or content changes nothing |
| `RequestBudget.ConsumeKeepsCount` | crates/peerless-node/src/lib.rs:1166-1187 | every request keeps the global counter equal to the sum of the identities' counters and both within their limits |
| `RequestBudget.RunKeepsCount` | crates/peerless-node/src/lib.rs:1166-1187 | the same after every run |
| `RequestBudget.AnyIntervalIsBounded` | crates/peerless-node/src/lib.rs:1166-1187 | with a clock that never goes back, any interval shorter than 60,000 ms admits at most twice the global limit, and twice the identity limit from one signer |
| `RequestBudget.RateLimiter.Take` | crates/peerless-node/src/lib.rs:1166-1187 | the in-place update is the specified step and keeps the counters exact |
| `RequestBudget.WithinOneWindow` | crates/peerless-node/src/lib.rs:1166-1187 | while a window lasts, at most what is left of each limit is admitted |
| `RequestBudget.ShortSpan` | crates/peerless-node/src/lib.rs:1166-1187 | a span shorter than a window meets at most one reset, so at most two allowances |
| `RequestBudget.BoundIsReached` | crates/peerless-node/src/lib.rs:1166-1187 | the identity bound is tight: one signer can get both allowances one millisecond apart |
| `RequestBudget.GlobalBoundIsReached` | crates/peerless-node/src/lib.rs:1166-1187 | the global bound is tight: four signers can get both allowances one millisecond apart |
| `VerifiedRuns.CountVotes` | crates/peerless-compute/src/lib.rs:117-120 | the counting loop gives every output its number of occurrences |
| `VerifiedRuns.MostVoted` | crates/peerless-compute/src/lib.rs:121-126 | scanning in any order returns a maximal count that reaches the threshold, or none does |
| `VerifiedRuns.VerifyOutputs` | crates/peerless-compute/src/lib.rs:82-129 | what is returned the policy accepts; an error means it accepts nothing |
| `VerifiedRuns.MajorityIsUnique` | crates/peerless-compute/src/lib.rs:108-129 | with 2 x required_matches > executions every iteration order accepts the same output |
| `VerifiedRuns.MinorityIsAmbiguous` | crates/peerless-compute/src/lib.rs:108-129 | for every smaller threshold some outputs let two different answers be accepted |
| `VerifiedRuns.VotesAreSupporters` | crates/peerless-node/src/lib.rs:1603-1653 | among distinct executors the votes for an output count its supporters |
| `VerifiedRuns.Gather` | crates/peerless-node/src/lib.rs:1622-1636 | the collecting loop keeps at most the required number of genuine answers of pairwise distinct executors |
| `VerifiedRuns.ExecuteVerified` | crates/peerless-node/src/lib.rs:1603-1653 | an accepted run rests on at least the needed number of matching attested records of distinct executors; it is refused iff no output is acceptable; and when enough executors answer first, few enough of them faulty, it returns the honest output |
| `VerifiedRuns.HonestRunIsAccepted` | crates/peerless-node/src/lib.rs:1611-1640 | with at least the policy's number of executors among the first peers asked, and no faulty one, or for a majority quorum at most as many as it can spare, the honest output is the one acceptable output, whatever later peers answer |
| `VerifiedRuns.UsedExactly` | crates/peerless-node/src/lib.rs:1816-1864 | a peer's replies are used iff it took content and task and returned a record of that very task signed by its executor, and bytes with the record's output as hash |
| `VerifiedRuns.AcceptedIsHonest` | crates/peerless-node/src/lib.rs:1603-1653 | with fewer faulty executors than needed matches the accepted output is the honest one |
| `VerifiedRuns.AcceptedVotes` | crates/peerless-compute/src/lib.rs:82-129 | an acceptable output has at least the votes its policy needs |
| `VerifiedRuns.FirstWith` | crates/peerless-node/src/lib.rs:1643-1647 | the accepted record is the first kept answer with the accepted output |
| `AnonymousAuth.EpochBounds` | crates/peerless-anonymous-auth/src/lib.rs:137-145 | the end of the current epoch lies after now and at most one epoch length later |
| `AnonymousAuth.EpochExactly` | crates/peerless-anonymous-auth/src/lib.rs:137-145 | exactly the times before the last multiple of the epoch length that fits 64 bits have an epoch, and no epoch ends later |
| `AnonymousAuth.NonceStore.TryReserve` | crates/peerless-anonymous-auth/src/lib.rs:420-437 | sweeping and reserving in place is the specified step; refused iff the nonce is live or the store is full |
| `AnonymousAuth.NonceStore.MarkCommitted` | crates/peerless-anonymous-auth/src/lib.rs:437-446 | committing in place marks that one entry, if it is there |
| `AnonymousAuth.NonceStore.ReleaseReserved` | crates/peerless-anonymous-auth/src/lib.rs:448-456 | only an uncommitted entry is released |
| `AnonymousAuth.RedemptionIsEarned` | crates/peerless-anonymous-auth/src/lib.rs:826-878 | on every run, timely or not, each redeemed token was presented with matching network, permission, current scope and checks, and settled later with a valid signature |
| `AnonymousAuth.FreeTokenRedeems` | crates/peerless-anonymous-auth/src/lib.rs:826-878 | a current token whose nonce is free is redeemed, its nonce committed for the full retention |
| `AnonymousAuth.CurrentScopeEndsSoon` | crates/peerless-anonymous-auth/src/lib.rs:137-145 | the scope current at a time ends after it and at most one epoch length, saturating, later |
| `AnonymousAuth.StepKeepsGuarded` | crates/peerless-anonymous-auth/src/lib.rs:420-456 | every timely step of any number of interleaved redemptions, refused presentations included, keeps live attempts holding their own reservations and redeemed nonces committed as long as their tokens may be presented |
| `AnonymousAuth.NoTokenRedeemedTwice` | crates/peerless-anonymous-auth/src/lib.rs:826-878 | on every timely run no token is redeemed twice |
| `AnonymousAuth.OneClockRedeemsOnce` | crates/peerless-anonymous-auth/src/lib.rs:826-878 | with one clock that never goes back, settlements within the retention, and the source's retention, no token is redeemed twice, whatever is presented and however often |
| `AnonymousAuth.RedeemsOnceExactly` | crates/peerless-anonymous-auth/src/lib.rs:741-750 | for every policy, retention, caller lag and settlement delay: all timely runs redeem each token at most once iff nothing has time to settle, or the retention covers an epoch and the lag together (or every time there is) and also every settlement or every presentation there can be |
| `AnonymousAuth.ForgottenNonceRedeemsTwice` | crates/peerless-anonymous-auth/src/lib.rs:420-435 | any retention shorter than an epoch and the lag has a timely run that redeems a token twice |
| `AnonymousAuth.LateSettlementRedeemsTwice` | crates/peerless-anonymous-auth/src/lib.rs:448-456 | any delay longer than a retention that does not reach the last presentation has a timely run in which a late release frees another attempt's reservation and a token is redeemed twice |
| `AnonymousAuth.StoreStaysBounded` | crates/peerless-anonymous-auth/src/lib.rs:420-435 | on every run, timely or not, the store never exceeds its capacity |
| `AnonymousAuth.ExpiredIsRefused` | crates/peerless-anonymous-auth/src/lib.rs:839-842 | a presentation of an expired token changes nothing |
| `AnonymousAuth.PresentKeepsGuarded` | crates/peerless-anonymous-auth/src/lib.rs:826-878 | a presentation that reserves its nonce is of a token neither in flight nor redeemed, and keeps the store guarded |
| `AnonymousAuth.SettleKeepsGuarded` | crates/peerless-anonymous-auth/src/lib.rs:437-456 | a timely commit or release leaves every other attempt's reservation and every redeemed nonce as they were |
| `Issuance.Issuer.Admit` | crates/peerless-anonymous-auth/src/lib.rs:622-635 | the in-place count is the specified visit; counted iff the limit is not reached |
| `Issuance.Issuer.Prune` | crates/peerless-anonymous-auth/src/lib.rs:671-676 | the sweep drops exactly the counters of past epochs |
| `Issuance.EpochMonotone` | crates/peerless-anonymous-auth/src/lib.rs:137-145 | a later time never has an earlier epoch |
| `Issuance.CounterIsCounted` | crates/peerless-anonymous-auth/src/lib.rs:622-635 | while time has not passed an epoch, a member's counter is the number of its requests counted for it |
| `Issuance.CountedUpToTheLimit` | crates/peerless-anonymous-auth/src/lib.rs:569-649 | on every run with a clock that never goes back, each member's requests in each epoch are counted up to the limit and never past it; credentials issued are no more than counted, and as many unless signing fails |
| `Issuance.BackwardClockExceedsTheLimit` | crates/peerless-anonymous-auth/src/lib.rs:622-635 | the clock condition is needed: for every limit, after a step back one request more is counted |
| `ScopeKeys.SweepServesExactly` | crates/peerless-anonymous-auth/src/lib.rs:803-823 | a sweep keeps serving a running scope iff no expired scope has the very same key; keys sharing only a truncated id do not matter |
| `ScopeKeys.OfferKeepsServed` | crates/peerless-anonymous-auth/src/lib.rs:753-799 | sweeping and adding a descriptor with a key of its own keeps every scope served and the ring within its bound |
| `ScopeKeys.OfferExactly` | crates/peerless-anonymous-auth/src/lib.rs:784-799 | a scope already here is known iff the whole descriptor is the same and otherwise in conflict; a new one is stored and served unless the ring is full |
| `ScopeKeys.VettedExactly` | crates/peerless-anonymous-auth/src/lib.rs:753-783 | which scopes and times an added descriptor may have |
| `ScopeKeys.KeyRing.RemoveExact` | crates/peerless-anonymous-auth/src/lib.rs:352-365 | the loop drops every copy of one key from one bucket and touches no other bucket |
| `ScopeKeys.KeyRing.Prune` | crates/peerless-anonymous-auth/src/lib.rs:803-823 | removing expired descriptors one by one leaves exactly the running ones and every bucket without the expired keys, in order |
| `ScopeKeys.SweepKeepsServed` | crates/peerless-anonymous-auth/src/lib.rs:803-823 | when every scope has a key of its own a sweep keeps all running scopes served |
| `ScopeKeys.KeyRing.SweepOne` | crates/peerless-anonymous-auth/src/lib.rs:811-822 | dropping one key from its own bucket drops it from all of them |
| `ScopeKeys.VettedScopeIsItsEpoch` | crates/peerless-anonymous-auth/src/lib.rs:760-778 | the times at which tokens of an added scope are current are exactly its epoch, up to its expiry |
| `ScopeKeys.SharedKeyIsLost` | crates/peerless-anonymous-auth/src/lib.rs:803-823 | two scopes under one key, added while both run: when the first expires the sweep takes the key of the second, which is then not served |
| `ScopeKeys.KeyRing.AddDescriptor` | crates/peerless-anonymous-auth/src/lib.rs:753-799 | the in-place addition is a sweep followed by the specified offer, a known scope compared by its whole descriptor; a descriptor that is not vetted changes nothing |
| `Cas.AdvanceKeepsSafe` | crates/peerless-storage/src/lib.rs:138-186 | every step of every writer, failed or not, keeps published objects complete, every writer's temporary its own, and every published object unchanged |
| `Cas.ApplyKeepsSafe` | crates/peerless-storage/src/lib.rs:138-186 | so do new writers and process deaths at any point |
| `Cas.CrashLeavesOthers` | crates/peerless-storage/src/lib.rs:138-186 | a process that dies takes exactly its own writers with it |
| `Cas.NothingIsEverCorrupt` | crates/peerless-storage/src/lib.rs:138-201 | on every interleaving of writers, failures and crashes no reader and no put meets a corrupt object, and what can be read once can be read ever after, unchanged |
| `Cas.AcknowledgedIsServed` | crates/peerless-storage/src/lib.rs:138-201 | a put that answered is served ever after, with its own bytes or with a collision, also when its process dies |
| `Cas.AloneEveryPutAnswers` | crates/peerless-storage/src/lib.rs:138-186 | from every reachable state an unfinished put left alone without failures finishes, whatever temporaries dead processes left, and unless it had given up it succeeds |
| `Cas.Run` | crates/peerless-storage/src/lib.rs:138-186 | every run keeps the store safe and every published object unchanged |
| `Cas.NamingKeepsSafe` | crates/peerless-storage/src/lib.rs:148-164 | trying a temporary name never disturbs another writer, also when the name is a leftover of a dead process |
| `Cas.LinkingKeepsSafe` | crates/peerless-storage/src/lib.rs:171-176 | publishing happens only with complete bytes and disturbs no other writer |
| `Cas.PutTellsTheTruth` | crates/peerless-storage/src/lib.rs:138-186 | on a sound directory a finished put, however its system calls went, never says corrupt, and says done only when the object can be read, with these bytes or colliding ones |
| `Cas.PutChecksExisting` | crates/peerless-storage/src/lib.rs:138-147 | on any directory, sound or not, a put whose object is there writes nothing and says done iff the object has its hash, and otherwise corrupt |
| `Cas.FileCas.Read` | crates/peerless-storage/src/lib.rs:188-201 | reading returns bytes that hash to the id, or says not found or mismatched |
| `Cas.FileCas.NameTemp` | crates/peerless-storage/src/lib.rs:148-164 | the retry loop ends with a free temporary created, or a failed call |
| `Cas.FileCas.WriteAll` | crates/peerless-storage/src/lib.rs:165-169 | writing and syncing, in pieces of any size, ends ready to link or to give up |
| `Cas.FileCas.Publish` | crates/peerless-storage/src/lib.rs:171-186 | linking and its three endings are the writer's moves |
| `Cas.FileCas.Put` | crates/peerless-storage/src/lib.rs:138-186 | the whole call, however each system call goes, is a run of the writer's moves to its answer |
| `OnionTraffic.OnionLayer` | crates/peerless-onion-protocol/src/lib.rs:872-920 | what the hop a sealed cell is for makes of it at any time and with any window: expired, out of window, replayed, its message, or the well-formed inner cell with the window committed |
| `OnionTraffic.PeelRefinesWalk` | crates/peerless-onion-protocol/src/lib.rs:861-920 | over any stretch of hops the windows do what plain sets of accepted sequences do, and what comes out is what the sets say, error included |
| `OnionTraffic.EventRefines` | crates/peerless-onion-protocol/src/lib.rs:872-920 | so for one event on any link, a cell nobody sealed for the hop included, which is dropped there and changes no window |
| `OnionTraffic.TrafficRefinesSets` | crates/peerless-onion-protocol/src/lib.rs:731-920 | on every run of lost, repeated, reordered, late and forged cells on any links each hop's window represents the set a plain receiver there has accepted |
| `OnionTraffic.TrafficDelivers` | crates/peerless-onion-protocol/src/lib.rs:861-920 | in every such run each sealed cell is delivered with its exact message, or handed on, iff every hop's plain set admits its layer in time, and is otherwise dropped at the first hop that does not, with the matching error |
| `OnionTraffic.DeliveredOnce` | crates/peerless-onion-protocol/src/lib.rs:861-920 | in every such run two deliveries have different sequences at the last hop, from whichever link a cell is replayed |
| `OnionTraffic.InOrderDelivers` | crates/peerless-onion-protocol/src/lib.rs:664-714 | a stream that arrives in order and in time is delivered whole, each message exactly |
| `OnionTraffic.ForwardIsOnion` | crates/peerless-onion-protocol/src/lib.rs:692-714 | a sender's cells are such sealed onions, all layers under one sequence |
| `OnionTraffic.AnswerIsOnion` | crates/peerless-onion-protocol/src/lib.rs:818-850 | so are answers sealed by the last relay and wrapped by the others, each under its own counter |
| `LimitedUploads.TransferFitsExactly` | crates/peerless-node/src/lib.rs:976-987 | a transfer within one window, nobody else asking, is acknowledged to its end iff its start, pieces and finish are no more requests than the window has left; otherwise exactly as many messages as are left are acknowledged and the next is refused |
| `LimitedUploads.LargestInOneWindow` | crates/peerless-node/src/lib.rs:976-987 | with a fresh budget that is iff the content is at most 4,094 pieces |
| `LimitedUploads.TransferProgress` | crates/peerless-node/src/lib.rs:976-987 | while the budget lasts every message is acknowledged and costs exactly one request |
| `Revocation.LastEventWins` | crates/peerless-node/src/lib.rs:656-700 | folding a ledger revokes exactly the members whose last join or revoke event is a revocation |
| `Revocation.FoldRevokesExactly` | crates/peerless-node/src/lib.rs:638-646 | folding events revokes exactly whom one of them revokes with no join after it, and whom the start had revoked and none lets join |
| `Gate.StepKeepsSynced` | crates/peerless-node/src/lib.rs:392-700 | every append, record, issuance, installation and restart, also one whose write fails half-way, keeps the revoked set equal to a full replay of the chain in memory, the block files that chain and blocks that followed it, the issued lists in memory and on disk bounded with one authentic own certificate a member, and the stored invitation an authentic one for this node |
| `Gate.RunKeepsSynced` | crates/peerless-node/src/lib.rs:392-700 | the same after every run |
| `Gate.RevokedIsLastWord` | crates/peerless-node/src/lib.rs:633-700 | after any run, restarts and failed writes included, a member is revoked iff an event of the chain in memory revokes it and no later one lets it join |
| `Gate.ReplayRevokesExactly` | crates/peerless-node/src/lib.rs:656-672 | replaying a chain revokes exactly the members that an event of some block revokes with no join after it in that block or a later one |
| `Gate.RestartExactly` | crates/peerless-node/src/lib.rs:289-366 | a restart succeeds iff the block files reopen as a chain of one network and the stored invitation and every stored certificate are of one network and unexpired when checked (without an invitation: nothing stored); it brings back that chain, the stored list and invitation, the replayed revoked set, and the rebuilt policy less the revoked members |
| `Gate.RestartRevokesExactly` | crates/peerless-node/src/lib.rs:289-366 | a restart that succeeds after any run computes the running node's revoked set iff the block file a failed append left says of every member it names what already stands; with no such file, always |
| `Gate.RestartOpensLedger` | crates/peerless-node/src/lib.rs:324-324 | the chain a restart finds is the one that opening the ledger directory accepts, for every listing of it |
| `Gate.EnrollAllExactly` | crates/peerless-node/src/lib.rs:349-363 | registering the stored certificates one by one succeeds iff each is a valid own one, and rebuilds the same list |
| `Gate.UnopenableStays` | crates/peerless-node/src/lib.rs:324-324 | block files that do not reopen never do again, whatever is appended, installed or restarted |
| `Gate.PutKeepsDistinct` | crates/peerless-node/src/lib.rs:459-476 | replacing or adding an issued certificate keeps one entry a member |
| `Gate.PutExactly` | crates/peerless-node/src/lib.rs:459-476 | an issued certificate takes its member's place or the end of the list, and every other stays where it was |
| `Gate.Members.ApplyRevocations` | crates/peerless-node/src/lib.rs:674-700 | the loop leaves the folded set and exactly the unrevoked policy entries |
| `Gate.Members.AppendLedgerBlock` | crates/peerless-node/src/lib.rs:633-655 | appending in place, through the ledger object and its directory, is the specified step however the write ends, and keeps the replay |
| `Gate.Members.RegisterIssued` | crates/peerless-node/src/lib.rs:434-513 | registering in place, with and without persisting, succeeds exactly as specified, and on an error after the file is replaced changes that file alone |
| `Gate.Members.EnforceMembership` | crates/peerless-node/src/lib.rs:777-808 | the loop installs exactly the valid certificates of the network |
| `Gate.Members.ActivateInvitation` | crates/peerless-node/src/lib.rs:405-432 | activating in place is the specified step, refused iff the invitation does not verify |
| `Gate.Members.InstallInvitation` | crates/peerless-node/src/lib.rs:392-404 | installing in place stores the invitation and activates it, or on an error after the file is replaced only stores it, or changes nothing |
| `Gate.Members.Seat` | crates/peerless-node/src/lib.rs:342-363 | activating the stored invitation and registering the stored certificates in a loop is the specified seating, or fails where it fails |
| `Gate.OpenNode` | crates/peerless-node/src/lib.rs:289-366 | start-up on a directory listing and the stored files gives the specified node, with a valid ledger object, or fails exactly where specified |
| `Admission.TaskAndBlockStopRestart` | crates/peerless-node/src/lib.rs:1463-1473 | one completed task and one block of another network bring a fresh node there |
| `Admission.ExpiredCertificateStopsRestart` | crates/peerless-node/src/lib.rs:349-363 | a running node that issued a certificate cannot restart once that certificate has expired |
| `Admission.ActivateShutsOutExactly` | crates/peerless-node/src/lib.rs:405-432 | installing an invitation puts up a gate that keeps revoked members out iff neither its member nor its issuer is revoked |
| `Admission.EnforceShutsOutExactly` | crates/peerless-node/src/lib.rs:777-808 | enforcing certificates puts up a gate that keeps revoked members out iff no installed one names a revoked member |
| `Admission.StepClosesExactly` | crates/peerless-node/src/lib.rs:289-700 | a gate that is up with nobody revoked inside stays so under every step, except exactly an installation that names a revoked member or issuer, and a successful restart with no stored invitation, after which there is no gate |
| `Admission.RevokedIsShutOut` | crates/peerless-node/src/lib.rs:289-700 | from such a gate, on every run without those two, there is a gate, and nobody whom an event of the chain revokes with no join after it is authorized for anything at any time |
| `Admission.RestartClosesExactly` | crates/peerless-node/src/lib.rs:325-365 | a restart that succeeds has a gate, with every revoked member outside, iff an invitation is stored; otherwise it authorizes everyone for everything |
| `Admission.FailedRestartAnswersNobody` | crates/peerless-node/src/lib.rs:289-366 | a node whose restart fails is down, with its files as they were, and answers nobody until a restart succeeds |
| `Admission.RestartReadmitsRevoked` | crates/peerless-node/src/lib.rs:777-808 | such a run: certificates are enforced, a block revokes a member, who is shut out, and the restart lets everyone in |
| `Admission.ServingStaysGated` | crates/peerless-node/src/lib.rs:920-938 | a node that may start a restricted listener has a gate, and keeps one until the process ends |
| `Admission.BlockShutsOut` | crates/peerless-node/src/lib.rs:633-700 | a block that is appended shuts out every revoked member again, whatever was installed before |
| `Admission.RevokedIssuerReadmitted` | crates/peerless-node/src/lib.rs:405-432 | a run in which an issuer that the ledger revoked regains every permission when its invitation is installed again |
| `Admission.ReinstalledCertificateReadmits` | crates/peerless-node/src/lib.rs:777-808 | a run in which a revoked member regains access when its certificate is enforced again |
| `Admission.AccessIsLastGrant` | crates/peerless-node/src/lib.rs:289-700 | on every run, failed writes and restarts included, each policy entry is what the history gives that member: its last certificate, invitation or entry rebuilt from the stored files, unless a block or restart since has revoked it |
| `Admission.AuthorizedExactly` | crates/peerless-node/src/lib.rs:119-124 | so on every run a member is authorized for a permission at a time iff the node is up and either the history put up no gate since its last restart, or its standing entry is unexpired then and names that permission or "*" |
| `Admission.EnforcedExactly` | crates/peerless-node/src/lib.rs:777-808 | enforcing certificates authorizes a member exactly for what its last certificate that counts covers: of that network, by a trusted issuer, authentic and unexpired when installed |
| `Admission.InstalledExactly` | crates/peerless-node/src/lib.rs:392-432 | an invitation changes nothing unless it is of version 1, not from the future, for this node, authentic and unexpired; then its issuer may do everything and this node what it names, until it expires, and nobody else anything |
| `Admission.IssuedExactly` | crates/peerless-node/src/lib.rs:370-391 | issuing changes nothing unless this node is an unexpired member and the certificate its own, authentic, unexpired, of its network, for a member not revoked, with room for it; then its member may do what it names, nobody else's access changes, and it is stored |
| `Admission.GatedExactly` | crates/peerless-node/src/lib.rs:289-366 | there is a gate iff the last restart found a stored invitation or one was installed or certificates enforced since |
| `Admission.IssuedIsKeptExactly` | crates/peerless-node/src/lib.rs:434-513 | the certificates in memory stay those on disk under every step, except exactly an issuance that fails after its file is replaced |
| `Admission.FailedIssueAdmitsOnRestart` | crates/peerless-node/src/lib.rs:502-513 | such a run: issuing fails, the member has no access, and the restart gives it |
| `Admission.OrphanRevokesOnRestart` | crates/peerless-node/src/lib.rs:633-655 | from every state that can restart and has no leftover file: a block whose append fails after its file is written changes nobody's standing until the restart, which revokes whom it revokes |
| `Admission.OrphanThenBlockStopsRestart` | crates/peerless-node/src/lib.rs:633-655 | and once another block of that height is written the node never starts again, whatever is tried |
| `Verifier.HonestTokenRedeemsExactly` | crates/peerless-anonymous-auth/src/lib.rs:826-878 | an honest token of a scope in the ring, presented in its epoch for its network and permission, is accepted iff its nonce can be reserved and no expired scope shares its key, and is otherwise told which of the two it was |
| `Verifier.AddedScopeIsServed` | crates/peerless-anonymous-auth/src/lib.rs:753-878 | once a descriptor of a new scope with a key of its own is added to a ring with room, an honest token of that scope is accepted in its epoch |
| `Verifier.EntersExactly` | crates/peerless-anonymous-auth/src/lib.rs:833-842 | the first checks pass iff the scope is of version 1, for this network and permission, and the time within its own epoch; which failure is called invalid and which expired |
| `Verifier.ReadsExactly` | crates/peerless-anonymous-auth/src/lib.rs:844-868 | a token is read iff it has 354 bytes and decodes, its scope is in the ring under the key id it names, and it names that id and the challenge |
| `Verifier.AcceptedIsGenuine` | crates/peerless-anonymous-auth/src/lib.rs:826-878 | what is accepted was whole, current and for its scope, a key of the ring checked it, its nonce was free, and that nonce is then committed for the retention |
| `Verifier.RedeemIsTwoSteps` | crates/peerless-anonymous-auth/src/lib.rs:826-878 | one uninterrupted redemption, whatever was redeemed before it, is the present and settle steps of the redemption machine, with these checks |
| `Verifier.NothingAcceptedTwice` | crates/peerless-anonymous-auth/src/lib.rs:753-878 | over every sequence of redemptions and descriptor additions with timely readings, no nonce is accepted twice under one scope |
| `Verifier.OneClockAcceptsOnce` | crates/peerless-anonymous-auth/src/lib.rs:741-750 | in particular with one clock and the source's retention |
| `Verifier.CallsAreSteps` | crates/peerless-anonymous-auth/src/lib.rs:826-878 | the nonces a sequence of calls leaves, and the tokens it accepts in order, are those of the redemption machine |
| `Verifier.AnonymousVerifier.RedeemToken` | crates/peerless-anonymous-auth/src/lib.rs:826-878 | the in-place redemption, each refusal in its order, is the specified one |
| `Verifier.AnonymousVerifier.CheckAny` | crates/peerless-anonymous-auth/src/lib.rs:378-386 | trying the keys of a bucket in turn finds one that checks iff there is one |

## Left out

- Cryptographic internals (ChaCha20-Poly1305, HKDF, X25519, RSA blind signing, Ed25519, SHA-256): abstract functions with the laws each proof needs.
- The libp2p swarm, gossip, relays, TCP framing and browser transports: their behaviour is that of libraries outside the repository.
- WebAssembly execution: the engine is outside the repository; a run is an arbitrary result or failure.
- Automerge documents and the SQLite metadata store: merge and query semantics are those of libraries outside the repository.
- Placement scores and host measurement: 64-bit floating point over system calls; the eligibility test on them is one boolean of an offer.
- JSON text: an injective serializer with an exact inverse; serialization errors do not occur.
- Lock-level interleavings inside the offer and commit handlers: each handled message is one step, so the `running` flag is never seen between steps.
- At-most-once execution across crashes: the ledger append and the metadata write are separate steps of the program, so it is not promised.
- A capability's sum of reserved memory is exact here; the program adds 64-bit numbers, which one reservation of bounded size cannot overflow.
- Errors from signature and identity libraries are a failed verification.
- Network ids and permissions are measured in characters; the program measures bytes.
- Power loss and the order in which a disk makes writes durable; deletion of store files by other programs.
- The temporaries of `atomic_replace` and `atomic_create`, store statistics and directory creation: a write that replaces or creates a file ends in one of three ways, done, not done, or done with an error.
- Plain replication, sharded execution and state documents: one request per peer or shard whose answers are only counted or concatenated.
- Bootstrap addresses of invitations: hints to the network layer that grant nothing.
- Blind signing, descriptor signing and the issuer's own key table: calls into the signature library, whose outcome is an argument of the counters and rings modelled here.
- Consensus.NewBftAdmits: the member order is any enumeration without repetition; the program sorts.
- OnionRoutes.CircuitSender.Seal: for a route already checked; `OnionRoutes.NewSender` has the error paths of its construction.
- Tasks.Executor.constructor: the stored results read back at start-up are the node's own records, one a task id.
- Gate.RestartExactly: reading the block, invitation and certificate files does not fail, and nobody else writes them.
- Admission.ServingStaysGated: of the listeners themselves, only the membership they ask for when they start.
