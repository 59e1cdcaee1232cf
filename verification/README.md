# terp-core in Dafny

A model of the parts of terp-core where correctness is a property of whole runs
rather than of one function, with proofs over every input, every run or every
reachable state.

1. **The v6.3 to v6.4 hash migration** (`Layout`, `LayoutProofs`, `KVStore`, `Chain`,
   `ChainProofs`, `ChainRuns`, `App`). The chain is a state machine over committed
   stores, upgrade plan, completed upgrades, height, the binary that wrote the last
   commit and the upgrade-info file. In each step the operator starts any of the
   three binaries (v63pre, v6.3.0, v6.4.0) and the block carries arbitrary keeper
   writes and arbitrary governance actions. Main results: every run without an
   unsafe start (see below) shows, through `KeeperKey`, exactly the contents of a
   chain that never migrates (`MigrationRefinement`), and runs of chains begun on
   v63pre or v6.4 have none (`GenesisRuns`); dest trees equal live trees whenever v6.4 is armed
   (`ArmedInvariant`); v6.4 is armed at most once, and only by the block that applied
   v6.3 (`ArmingSafety`, `ArmedAtMostOnce`); the documented
   halt-apply-gap-halt-cutover run does complete (`CutoverCompletes`). `App` has the
   same EndBlocker, arming and copying as imperative code over mutable stores, proved
   equal to the steps of the state machine.
2. **The v5.2.0 distribution patch** (`Dec`, `Rewards`, `RefCounts`, `Distribution`,
   `ValPatch`, `ValPatchProofs`, `SecondPass`, `PatchSample`,
   `Patcher`). F1 fee distribution with 18-digit
   truncating decimals, slash events, reference-counted historical records,
   outstanding rewards and the community pool. `Patcher.Keepers` is the mutable
   keeper state with the nested loops; its methods are proved against functions, and
   the bounds, conservation, fixpoint and reference-count results are proved of
   those functions over a whole pass.
3. **ICS-20 denom traces** (`DenomTrace`). The drop-or-prepend rule of the
   destination callback computes the free reduction of the walk a token travelled,
   on any network of channels.
4. **CID, varint and protobuf codecs** (`Varint`, `Cid`, `CidReader`, `Wire`).
   Canonical varints, CIDs and prefixes, a buffered stream decoder that agrees with
   the slice decoder, and two protobuf writers recovered by a wire-format reader.
5. **The v6.1 legacy-params migration** (`Params`).

## What is assumed of other code

Library behaviour the repository relies on is written out as ordinary functions, so
each assumption can be read:

- Cosmos SDK upgrade keeper and store loader: `Chain.Load`, `PreBlockPasses`,
  `ScheduleUpgrade`, `DoneHeight`. A mounted store must be committed or Added, an
  Added one must not be committed; a due plan without a handler writes the
  upgrade-info file and halts; a pending plan whose handler is already registered
  stops the node; otherwise the handler of the last completed upgrade must be
  registered; nothing writes a store between EndBlocker and the commit.
- x/distribution `IncrementValidatorPeriod`: `RefCounts.EndPeriod`. A missing
  historical record reads as empty with count 0; a missing starting info panics.
- Bank transfers: `Distribution.Send`. It moves the coins or changes nothing.
- go-varint (63-bit limit, `Varint.FromUvarint`, `CidReader.StreamUvarint`) and
  go-multihash (`Cids.ReadMultihash`).
- Amino decoding, validation and module defaults: the `Codec` argument in `LegacyParams`.

`ChainProofs.Inv` is the invariant of the chain's states; `GenesisRuns` shows that it
holds after every run of every chain, whichever binary the chain began with.

## Where a promise does not hold, or code and comment differ

- `StaleCutover`, `StartKeepsView`: on a v6.3 commit with no plan due, the v6.4 binary
  commits exactly when no upgrade was ever completed and no plan named v6.4 is pending,
  whatever else is pending, on disk or in the block, as long as no module fails. What its modules read is then what
  was committed if and only if every dest store equals its live store. `StaleRunLosesKey`
  is such a run, from a v6.3 genesis, that loses an entry. `MigrationRefinement` excludes
  blocks committed from such starts; the other results do not need to.
- `GhostSlashBreaksRefs`, `RefsExactIffNoGhost`: the ghost slash event takes no reference on the
  record it names; after a pass a validator's counts are exact if and only if it got no such event.
- `SecondCall`: a second call of the patch at one height patches a delegation again exactly when it
  is on the validator with the ghost event, started at height 0 or 1, and owes being settled to
  slashes after height 1, which the event masks. `SecondCallPatchesAgain` is such a state.
- `V1CastRoundTrip`, `V1Parts`: with a codec of 2^63 or more, `Cast` rejects the CID
  and `Hash` does not recover the multihash. The comment on `NewCidV1` promises a
  panic for an invalid multihash; the code has none, and the model follows the code.
- `ThereAndBack`: the bare rule does not undo itself on a trace that starts with both
  ends of one channel; `TraceStaysReduced` and `SendBackRestores` show that no run produces such a trace.
- `EmptyProofCollides`: no proofs and one empty proof are both written as no bytes. By
  `MerkleProofInjective` this is the only collision as long as a single proof is a message of at
  most one field, which an ics23 CommitmentProof is, its kinds of proof being alternatives.
- `HashPolicy`: blake3 needs a non-empty name, because the length test is strict.
- The comment on `DestStores` says they are added by v6.1; v6.3 adds them too.

## Model

| member | source | states |
|---|---|---|
| `LayoutProofs.KeeperKeyTotalInjective` | app/keepers/keys.go:61-70 | On every binary each module has a mounted store behind KeeperKey and no two modules share one |
| `LayoutProofs.StoreUpgradesMatchLayouts` | app/upgrades/v6_3/constants.go:29-32 | Adding and deleting what v6.3 and v6.4 register turns the previous binary's mounted set into exactly the next one's, with no Added store already there and no Deleted one absent |
| `LayoutProofs.RegisteredPlans` | app/upgrades_register.go:12-18 | Exactly which plans each binary has a handler for, and that v6.1 and v6.3 add the dest stores |
| `LayoutProofs.HashPolicy` | app/iavl/store.go:82-99 | Behind KeeperKey a module sits on a blake3 tree exactly on the v6.4 binary for a migratable, non-empty name, and on sha256 otherwise |
| `LayoutProofs.AlwaysStoresKeepTheirTree` | app/keepers/keys.go:20-31 | No binary mounts a dest tree for an always-mounted store, and KeeperKey keeps it on its own name, IBC included |
| `LayoutProofs.KeysPrefixFree` | app/iavl/store.go:20-24 | If the plain names are prefix-free, every binary's full mounted set is, as the SDK demands of store keys |
| `LayoutProofs.ShippedKeysPrefixFree` | app/iavl/store.go:20-24 | No store name in the shipped lists is repeated, and the keys each of the three binaries mounts are prefix-free, so the SDK's panic on either is out of reach |
| `LayoutProofs.ShippedLayoutIsValid` | app/iavl/store.go:37-60 | The name lists in the repository meet what the migration asks of them and hold no IBC store |
| `LayoutProofs.ShippedAlwaysAreIBC` | app/iavl/store.go:9-18 | Of the always-mounted stores exactly upgrade and params are not IBC-facing; none is copied and all stay on sha256 |
| `KVStores.MultiStore.SyncKVStore` | app/upgrades/v6_3/copy.go:16-42 | Dest ends equal to src from any starting dest, nothing else changes, and the counters are the size of src and the number of dest-only keys |
| `KVStores.MultiStore.CopyKVStore` | app/upgrades/v6_1/upgrades.go:79-91 | Dest ends as dest overridden by src, nothing else changes, and the count is the size of src |
| `KVStores.ExtraKeys` | app/upgrades/v6_3/copy.go:27-33 | Collects each dest key that is not live, once |
| `KVStores.SyncVersusCopy` | app/upgrades/v6_1/upgrades.go:79-91 | The v6.1 copy and the v6.3 sync agree exactly when dest had no key outside src |
| `KVStores.SyncAgain` | app/upgrades/v6_3/copy.go:16-42 | A second sync deletes nothing and leaves the stores as the first did |
| `App.DestStores` | app/iavl/store.go:63-70 | The dest name of each migratable store, in order |
| `App.DualStorePairs` | app/iavl/store.go:73-80 | Each migratable store paired with its dest name, in order |
| `App.TerpApp.GenerateKeys` | app/keepers/keys.go:33-46 | Appending the name lists yields exactly the mounted set of the running binary |
| `App.TerpApp.KeeperKey` | app/keepers/keys.go:63-70 | Every module of a valid layout finds a mounted key: the dest tree for a migratable module on v6.4, its own name otherwise |
| `App.TerpApp.SyncDestFromLive` | app/upgrades/v6_3/upgrades.go:76-98 | Fails exactly on an IBC-facing name; otherwise every mounted pair ends equal and no other store changes |
| `App.TerpApp.CopyDualStores` | app/upgrades/v6_3/upgrades.go:47-65 | The handler's loop fails exactly on an IBC-facing name or an unmounted pair; otherwise every pair ends equal |
| `App.TerpApp.ArmNext` | app/upgrades/v6_3/upgrades.go:118-142 | The plan afterwards and the error are those of the state machine's arming step |
| `App.TerpApp.SyncDestWhileArmed` | app/upgrades/v6_3/upgrades.go:102-114 | Synchronises exactly while a plan named v6.4 is stored |
| `App.TerpApp.ArmHasherNext` | app/endblock_v63.go:13-18 | Arms first and synchronises against the plan left by arming; does nothing on the v6.4 binary |
| `App.TerpApp.EndBlocker` | app/app.go:554-563 | The imperative EndBlocker fails exactly when the state machine refuses the block, and otherwise leaves exactly the state it commits |
| `App.TerpApp.CheckMounts` | app/upgrades/v6_4/upgrades.go:35-49 | The early-return loop accepts exactly the mounts with every dest tree, no live migratable tree, ibc, and no dest tree for ibc |
| `ChainProofs.StartableBinaries` | app/app.go:705-724 | Which binaries can open a reachable commit: the one that wrote it, v6.3.0 on a v63pre commit with a due plan, or v6.4.0 on a v6.3 commit; surviving stores keep their content |
| `ChainProofs.StartKeepsView` | app/app.go:705-724 | For a binary that gets past the upgrade module, every module reads through KeeperKey what was committed if and only if the start is not a stale one on dest stores that differ from the live ones |
| `ChainProofs.V64ViewIsMirror` | app/keepers/keys.go:61-70 | On a v6.3 commit the v6.4 binary reads what v6.3 read if and only if every dest store equals its live store |
| `ChainProofs.CutoverIsMirrored` | app/upgrades_register_v64.go:10-14 | The v6.4 binary gets past the upgrade module on a v6.3 commit exactly when its own plan is due or on a stale start, and dest equals live whenever its plan is stored |
| `ChainProofs.HandleView` | app/upgrades/v6_3/upgrades.go:27-71 | A handler changes what modules read by its keeper writes only; the dual-store copies are invisible |
| `ChainProofs.HandlersCopy` | app/upgrades/v6_3/upgrades.go:47-65 | After the v6.3 handler every dest store equals its live store; after the v6.1 handler it is the old dest overridden by live |
| `ChainProofs.SyncWhileArmedEffect` | app/upgrades/v6_3/upgrades.go:100-114 | While v6.4 is armed the step makes all pairs equal and changes nothing modules read; under any other plan or none it changes nothing at all |
| `ChainProofs.UnarmedBlockKeepsDest` | app/upgrades/v6_3/upgrades.go:106-112 | A v6.3 block that applies no plan and ends without v6.4 stored leaves every dest store as it was, whatever else is pending |
| `ChainProofs.HandlersSucceed` | app/upgrades/v6_3/upgrades.go:47-65 | Exactly when each handler succeeds: v6.1 and v6.3 on the v6.3 binary without IBC-facing pairs, v6.4 on the v6.4 binary |
| `ChainProofs.DroppedVersionKey` | app/upgrades/v6_3/upgrades.go:40-45 | The entry the v6.3 handler removes is byte 2 and the name ibchooks, in the upgrade store |
| `ChainProofs.FailedBlock` | app/app.go:554-558 | A block in which a module fails commits nothing |
| `ChainProofs.FinishKeeps` | app/app.go:554-563 | The block after the upgrade module keeps the invariant; a failed one leaves the last commit, a committed one shows exactly the body's writes |
| `ChainProofs.ExecKeeps` | app/app.go:554-563 | One attempt by any binary at any block keeps the invariant; a committed block adds exactly its keeper writes to what the binary loaded, which after a safe start is what was committed |
| `ChainProofs.RunKeepsInv` | app/app.go:554-563 | The invariant holds after any run |
| `ChainProofs.ArmedInvariant` | app/endblock_v63.go:13-18 | After any run, if the v6.3 binary wrote the last commit and the stored plan is named v6.4, every dest store equals its live store, whatever governance scheduled or cancelled |
| `ChainProofs.MigrationRefinement` | app/app.go:554-563 | After any run that committed no block from an unsafe start, module contents read through KeeperKey equal those of a one-store-per-module chain that executed the same committed writes |
| `ChainProofs.RunsAreSafe` | app/app.go:705-724 | No run commits from an unsafe start unless it begins on a v6.3 commit without a completed upgrade |
| `ChainProofs.GenesisRuns` | app/app.go:554-563 | From the genesis of any binary, after any run: the invariant, dest equal to live while v6.4 is armed, and, for a chain begun on v63pre or v6.4, the refinement without any guard |
| `ChainRuns.ArmingSafety` | app/upgrades/v6_3/upgrades.go:118-142 | A block that arms applied v6.3 itself, for the first time, had no pending plan left by governance, and schedules v6.4 two heights later |
| `ChainRuns.DoneIsStable` | app/upgrades/v6_3/upgrades.go:122-128 | The height a completed upgrade is recorded at never changes |
| `ChainRuns.ArmedAtMostOnce` | app/upgrades/v6_3/upgrades.go:116-142 | Over any run v6.4 is armed at most once, and never after v6.3 was completed |
| `ChainRuns.HaltStep` | app/upgrades_register.go:12-18 | At a due plan the running binary has no handler for, nothing is committed and only the upgrade-info file changes |
| `ChainRuns.QuietBlockCommits` | app/app.go:554-563 | Apart from upgrades, a block in which no module fails commits on the binary that wrote the last one |
| `ChainRuns.V63Opens` | app/app.go:705-724 | The v6.3 binary opens a halted v63pre commit exactly for plans v6.1 and v6.3 |
| `ChainRuns.ApplyV63` | app/upgrades/v6_3/upgrades.go:17-71 | After the halt the v6.3 binary commits the apply block and arms v6.4 at apply height + 2 |
| `ChainRuns.GapStep` | app/upgrades/v6_3/upgrades.go:100-114 | The gap block commits and keeps the armed plan |
| `ChainRuns.ApplyV64` | app/upgrades/v6_4/upgrades.go:21-66 | After the second halt the v6.4 binary starts, passes its mount checks, commits and leaves no plan |
| `ChainRuns.MountChecksPass` | app/upgrades/v6_4/upgrades.go:35-49 | The mount checks pass on the v6.4 layout and on no other |
| `ChainProofs.MountChecksMean` | app/upgrades/v6_4/upgrades.go:35-49 | On any set of keys the checks mean no live tree, every dest tree, ibc, and no dest tree for it |
| `ChainRuns.CutoverCompletes` | app/upgrades/v6_3/upgrades.go:17-19 | The five-step run ends on the v6.4 binary at height + 3, with both upgrades recorded, exactly the v6.4 stores, and the contents of a chain that never migrated |
| `ChainRuns.StaleCutover` | app/upgrades_register_v64.go:10-14 | With no plan due on a v6.3 commit, for any pending plan, upgrade-info file and block in which no module fails, the v6.4 binary commits exactly when no upgrade was ever completed and v6.4 is not pending; its modules then continue from the dest stores, which is what was committed exactly when they equal the live ones |
| `ChainRuns.StaleRunLosesKey` | app/upgrades_register_v64.go:10-14 | On a chain begun on v6.3, any entry of any migratable module is gone once v6.4 is started, while the reference chain keeps it |
| `DenomTrace.ReceivePacketCallback` | x/wasm/ibc.go:412-482 | When the contract is called and with what transfer, the receiver's address encoded again and the rewritten trace in it, and the exact condition of each of the four errors, in order |
| `DenomTrace.TraceIsReducedWalk` | x/wasm/ibc.go:447-456 | On any network and walk, the trace is the free reduction of the walk, read newest hop first |
| `DenomTrace.ReduceIsWalk` | x/wasm/ibc.go:447-456 | The reduction of a walk is itself a walk, reduced, ending at the same chain |
| `DenomTrace.TraceStaysReduced` | x/wasm/ibc.go:447-456 | No reachable trace holds a hop followed by its own channel's counterpart, and following it hop by hop leads back to the token's origin |
| `DenomTrace.ThereAndBack` | x/wasm/ibc.go:447-456 | The bare rule is undone by the opposite transfer if and only if the trace does not start with both ends of that channel |
| `DenomTrace.SendBackRestores` | x/wasm/ibc.go:447-456 | After any run, a transfer followed by one straight back restores the trace |
| `DenomTrace.ReductionIsUnique` | x/wasm/ibc.go:447-456 | Cancelling adjacent opposite hops in any order and place never changes the reduction, and can end nowhere else |
| `DenomTrace.ReductionByCancelling` | x/wasm/ibc.go:447-456 | The reduction is reached by such cancellations |
| `DenomTrace.SameTraceSameRoute` | x/wasm/ibc.go:447-456 | Two tokens on one chain have equal traces exactly when they have the same origin chain and the same reduced route |
| `Varint.AppendUvarint` | cmd/ipfs/add.go:73-79 | The shift loop appends the canonical encoding |
| `Varint.ReadUvarintString` | cmd/ipfs/cid.go:31-50 | The shift-and-or loop with 64-bit wrap-around decodes as the reference does, with the same overflow, non-minimal and truncation errors |
| `Varint.RoundTrip64` | cmd/ipfs/cid.go:31-50 | Decoding an encoded uint64 with anything after it returns the value and the encoded length |
| `Varint.RoundTrip63` | cmd/ipfs/cid.go:666-678 | The 63-bit decoder returns the value exactly below 2^63 and overflows from there on |
| `Varint.AcceptedIsEncoding` | cmd/ipfs/cid.go:31-50 | Whatever either decoder accepts is the encoding of its result, and they agree exactly below 2^63 |
| `Varint.UvarintUnderflows` | cmd/ipfs/cid.go:31-50 | Underflow exactly when no byte ends the number |
| `Varint.UvarintErrors` | cmd/ipfs/cid.go:36-42 | For a number that ends, exactly when it is not minimal and when it overflows |
| `Varint.PrefixFree` | cmd/ipfs/add.go:73-79 | No encoding is a proper prefix of another |
| `Varint.SizeLimits` | cmd/ipfs/cid.go:36-42 | Which lengths and last bytes stay below 2^63 and 2^64 |
| `Cids.MultihashSelfDelimiting` | cmd/ipfs/cid.go:652-688 | Bytes after a multihash do not change how it is read |
| `Cids.V1SelfDelimiting` | cmd/ipfs/cid.go:652-688 | For a codec below 2^63 and a valid multihash, CidFromBytes reads the CID back and stops at its end whatever follows |
| `Cids.V1CastRoundTrip` | cmd/ipfs/cid.go:297-308 | Cast of the bytes is the identity if and only if the codec is below 2^63 and the multihash is valid |
| `Cids.CastAccepts` | cmd/ipfs/cid.go:297-308 | For all data, Cast accepts exactly the bytes of a version 0 CID or of a version 1 CID with 63-bit codec and valid multihash, and returns them whole |
| `Cids.TrailingBytesRefused` | cmd/ipfs/cid.go:303-305 | Any bytes after a CID make Cast fail |
| `Cids.V1Parts` | cmd/ipfs/cid.go:333-348 | A NewCidV1 value is never read as version 0, its codec is always recovered, and its hash exactly for codecs below 2^63 |
| `Cids.V1Prefix` | cmd/ipfs/cid.go:530-555 | Prefix recovers version, codec, hash code and digest length |
| `Cids.MalformedPrefix` | cmd/ipfs/cid.go:530-555 | Where the multihash does not start with a number, code and length read as 0 |
| `Cids.V0Shape` | cmd/ipfs/cid.go:125-136 | A multihash makes a version 0 CID exactly when it is 34 bytes starting 18, 32 |
| `Cids.Version0Iff` | cmd/ipfs/cid.go:333-338 | For every string, it is read as version 0 exactly when it makes a version 0 CID |
| `Cids.V0RoundTrip` | cmd/ipfs/cid.go:400-413 | A version 0 CID gives back its parts and prefix, is self-delimiting, and survives Cast |
| `Cids.ParsedIsConstructed` | cmd/ipfs/cid.go:652-688 | CidFromBytes returns only CIDs the constructors build |
| `Cids.ReadPrefix` | cmd/ipfs/cid.go:530-555 | The running-offset form of Prefix computes the specified fields |
| `Cids.PutUvarint` | cmd/ipfs/cid.go:603-618 | Writes the encoding in place at an offset and leaves the rest of the buffer |
| `Cids.WritePrefix` | cmd/ipfs/cid.go:603-618 | The buffer-and-offset form writes the four encodings in order, within the buffer it allocates |
| `Cids.PrefixRoundTrip` | cmd/ipfs/cid.go:620-650 | With anything after them, PrefixFromBytes inverts Prefix.Bytes exactly when all fields are below 2^63 and the length is not negative, and fails otherwise |
| `Cids.PrefixIsRead` | cmd/ipfs/cid.go:620-650 | Whatever PrefixFromBytes accepts starts with the bytes of the prefix it returns |
| `CidReader.BufByteReader.ReadByte` | cmd/ipfs/cid.go:706-726 | Takes one byte from the reader and records it, in either reading mode |
| `CidReader.BufByteReader.ReadUvarint` | cmd/ipfs/cid.go:738-754 | Takes and records exactly the bytes the varint reader consumed |
| `CidReader.CidFromReader` | cmd/ipfs/cid.go:738-832 | The result is that of the stream specification, and on every exit the returned count is the number of bytes taken from the reader |
| `CidReader.ReadHash` | cmd/ipfs/cid.go:781-832 | The multihash part, with the same count guarantee |
| `CidReader.StreamAgrees` | cmd/ipfs/cid.go:738-754 | The streaming and slice varint readers accept the same prefixes with the same value and length |
| `CidReader.StreamAndSliceAgree` | cmd/ipfs/cid.go:652-832 | CidFromReader succeeds exactly when CidFromBytes does and the digest is at most 32 MiB, and then with the same length and CID |
| `CidReader.BareEOFOnlyWhenEmpty` | cmd/ipfs/cid.go:736-754 | The undecorated EOF is returned exactly for an empty stream that ends in EOF |
| `Wire.ReadWritten` | cmd/ipfs/add.go:62-71 | A wire-format reader recovers any written field with anything after it |
| `Wire.WireRoundTrip` | cmd/ipfs/add.go:62-71 | It recovers any list of fields from the message |
| `Wire.AppendVarintField` | cmd/ipfs/add.go:62-65 | Appends the wire form of a number field |
| `Wire.AppendBytesField` | cmd/ipfs/add.go:67-71 | Appends the wire form of a bytes field |
| `Wire.EncodeUnixFSFileBlock` | cmd/ipfs/add.go:46-60 | Writes the UnixFS message wrapped as a dag-pb node |
| `Wire.FileBlockReads` | cmd/ipfs/add.go:46-60 | Reading the block and its inner message gives back file type 2, the content and its length |
| `Wire.FileBlockInjective` | cmd/ipfs/add.go:46-60 | Equal blocks hold equal content |
| `Wire.MarshalIbcMerkleProof` | app/wasmlc/verify.go:114-129 | Fails exactly when a proof fails to marshal; otherwise writes the list, a single proof bare |
| `Wire.MerkleProofReads` | app/wasmlc/verify.go:114-129 | Except for single proofs, the reader recovers the exact proof list |
| `Wire.MerkleProofInjective` | app/wasmlc/verify.go:114-129 | When a single proof is at most one field, equal bytes mean equal lists, but for the empty list and the list of one empty proof |
| `Wire.SingleIsNotList` | app/wasmlc/verify.go:114-129 | A bare proof of at most one field has the bytes of no list of two or more |
| `Wire.EmptyProofCollides` | app/wasmlc/verify.go:114-129 | The exception: no proofs and one empty proof are written alike |
| `Rewards.CalculateDelegationRewards` | app/upgrades/v520/patch.go:190-259 | The loop over slash events computes the specified rewards, patched flag or panic |
| `Rewards.CalculateReturnsIff` | app/upgrades/v520/patch.go:190-259 | Exactly when a calculation returns: shares, a slashed stake within the margin, and every segment payable |
| `Rewards.CalculateReturns` | app/upgrades/v520/patch.go:190-259 | With ratios that never fall, fractions at most one, periods that are over and a stake within the margin it returns |
| `Rewards.EventsSeen` | app/upgrades/v520/patch.go:219-220 | The slash events seen are those from the starting height to this one |
| `Rewards.BetweenPays` | app/upgrades/v520/patch.go:380-420 | One segment pays stake times ratio difference less under one 10^-18 unit, or panics on unordered periods, ratios or negative stake |
| `Rewards.BetweenReturns` | app/upgrades/v520/patch.go:380-420 | Exactly when a segment pays, with ratios compared denom by denom, and exactly when each of its three panics comes |
| `Rewards.WalkSpans` | app/upgrades/v520/patch.go:213-233 | Across any number of slash events the periods used strictly increase and chain up, and the stake never increases |
| `Rewards.RewardsMatchSegments` | app/upgrades/v520/patch.go:190-259 | The total is within one unit per segment of the untruncated segment sum, for segments that chain from the starting to the ending period |
| `Rewards.RewardBound` | app/upgrades/v520/patch.go:190-259 | Per denom the reward is at most the starting stake times the ratio difference from starting to ending period |
| `Rewards.PatchMargin` | app/upgrades/v520/patch.go:235-258 | With the slashed stake defined apart from rewards: the too-high panic exactly when it exceeds current by more than the margin, patched exactly when it exceeds current at all, and the last stake used is the smaller of the two |
| `Rewards.MarginRounded` | app/upgrades/v520/patch.go:235-258 | The margin is 0.095 of the stake to the nearest unit |
| `Rewards.CurrentStakeRounded` | app/upgrades/v520/patch.go:235-258 | The current stake is the shares' part of the tokens to half a unit, up to the digits the first truncation drops |
| `Dec.RoundingError` | app/upgrades/v520/patch.go:235-258 | Banker's rounding is off by at most half a unit and to even on ties |
| `Dec.MulTruncated` | app/upgrades/v520/patch.go:225-228 | A truncated product is the largest decimal not above the true one |
| `Dec.TruncateBelowRound` | app/upgrades/v520/patch.go:479-481 | The truncated stake stored at initialization never exceeds the rounded stake the calculation compares it with |
| `RefCounts.PresentIffReferred` | app/upgrades/v520/patch.go:438-449 | A record is present exactly while something refers to it |
| `RefCounts.EndPeriodKeepsRefs` | app/upgrades/v520/patch.go:81-85 | Ending a period keeps all counts exact and starts the new record at one; it cannot underflow, and panics exactly when rewards without tokens exceed outstanding |
| `RefCounts.EndPeriodAccounts` | app/upgrades/v520/patch.go:81-85 | The ratio grows by exactly the truncated reward per token; without tokens the rewards leave outstanding for the pool; the running rewards start over |
| `RefCounts.EndPeriodKeepsRatios` | app/upgrades/v520/patch.go:81-85 | No other record's ratio changes |
| `RefCounts.DropStartKeepsRefs` | app/upgrades/v520/patch.go:342-356 | Dropping a starting info keeps counts exact and never reaches the underflow panic |
| `RefCounts.StartKeepsRefs` | app/upgrades/v520/patch.go:452-482 | Initializing a delegation keeps counts exact, and reaches the overflow panic exactly when more than two references are held on the last record |
| `RefCounts.StartStoresStake` | app/upgrades/v520/patch.go:477-481 | A started delegation gets its truncated part of the tokens, this height and the last period |
| `RefCounts.StartFrame` | app/upgrades/v520/patch.go:452-482 | Starting touches one starting info and one count, and no ratio |
| `RefCounts.DropFrame` | app/upgrades/v520/patch.go:342-356 | Dropping touches one starting info and one count, and no ratio of a record that stays |
| `RefCounts.RestartKeepsRefs` | app/upgrades/v520/patch.go:342-356 | Period end, withdrawal and reinitialization together keep counts exact and reach neither panic; the last record ends with two references |
| `RefCounts.GhostSlashBreaksRefs` | app/upgrades/v520/patch.go:117-128 | The ghost event always refers to a record without counting on it |
| `RefCounts.GhostRecordIsDropped` | app/upgrades/v520/patch.go:117-128 | Two periods later the record the ghost event names is gone while the event stays |
| `Distribution.WithdrawConserves` | app/upgrades/v520/patch.go:285-341 | Outstanding falls by the rewards it covers, which is paid coins plus the remainder to the pool; the coins go from the module to the withdraw address and to no other account; balance minus everything promised is unchanged; other validators are untouched |
| `Distribution.WithdrawFails` | app/upgrades/v520/patch.go:302-322 | With starting info a withdrawal returns no error but a failed send, and from a solvent state that only for a recipient the bank refuses |
| `Distribution.WithdrawOutcomes` | app/upgrades/v520/patch.go:276-284 | Every other way a withdrawal ends: missing starting info, a panic of the calculation, the not-patched panic exactly when it is not patched, a failed send or the reference-count panic |
| `Distribution.ReportedIsPaid` | app/upgrades/v520/patch.go:357-366 | What is reported is what was paid in every denom, and never an empty list |
| `Distribution.PromisedUpdate` | app/upgrades/v520/patch.go:325-341 | Changing one validator's outstanding changes the total by the same amount |
| `ValPatchProofs.PatchedIffUnsettled` | app/upgrades/v520/patch.go:235-258 | A calculation that returns marks the delegation patched exactly when slashing leaves more stake than it has |
| `ValPatchProofs.VisitSettles` | app/upgrades/v520/patch.go:55-115 | After a visit the delegation has nothing left to patch |
| `ValPatchProofs.PatchIsFixpoint` | app/upgrades/v520/patch.go:209-212 | Recalculating after withdraw and reinitialize yields no reward and no patch |
| `ValPatchProofs.StartedIsSettled` | app/upgrades/v520/patch.go:452-482 | A freshly started delegation has nothing to patch at any later height with the same slash events |
| `ValPatchProofs.PatchLasts` | app/upgrades/v520/patch.go:479-481 | A patched delegation stays settled at every later height and in every later state with the same tokens, shares, slash events and delegation |
| `ValPatchProofs.PaidAtMostOnce` | app/upgrades/v520/patch.go:55-115 | However often and in whatever order delegations are visited, each is paid at most once, none if it was settled, and is settled after its first visit |
| `ValPatchProofs.PaidAtMostOnceInPass` | app/upgrades/v520/patch.go:44-129 | At most once also on the validator with the ghost event, which comes after its delegations |
| `SecondPass.PassPatchesPending` | app/upgrades/v520/patch.go:44-129 | A pass patches a delegation exactly when it visits it and, before the pass, it has shares and more slashed than current stake |
| `SecondPass.GhostMasks` | app/upgrades/v520/patch.go:117-128 | From a start at height 0 or 1 the ghost event takes its fraction and makes every slash after height 1 be passed over |
| `SecondPass.GhostPends` | app/upgrades/v520/patch.go:117-128 | The ghost event makes pending exactly the settled delegations it revives; none started after height 1 |
| `SecondPass.SecondPassCount` | app/upgrades/v520/patch.go:29-129 | A second pass patches a delegation again exactly when its validator got the ghost event and, in the state before both passes, that event revives it |
| `SecondPass.SecondPassPatchesNothing` | app/upgrades/v520/patch.go:29-129 | The second pass patches nothing at all if and only if no delegation it visits is revived |
| `SecondPass.PassKeepsShares` | app/upgrades/v520/patch.go:56-66 | No pass removes or changes a delegation with shares |
| `Patcher.SecondCall` | app/upgrades/v520/patch.go:29-129 | Two completed calls at one height: the second patches nothing if and only if, in the state before both, the ghost event revives no delegation of its validator |
| `Patcher.SecondCallElsewhere` | app/upgrades/v520/patch.go:29-129 | On every other validator two completed calls never patch a delegation a second time |
| `Patcher.SecondCallPatchesAgain` | app/upgrades/v520/patch.go:117-128 | A state with exact counts on which the second completed call does patch again |
| `ValPatchProofs.PassKeepsRefs` | app/upgrades/v520/patch.go:423-482 | A whole pass keeps counts exact on validators without a ghost event and reaches neither refcount panic nor the not-patched panic |
| `ValPatchProofs.RefsExactIffNoGhost` | app/upgrades/v520/patch.go:117-128 | After a whole pass a validator's counts are exact if and only if it got no ghost event |
| `ValPatchProofs.PassConserves` | app/upgrades/v520/patch.go:285-341 | A whole pass leaves, per denom, module balance minus outstanding and pool as it was |
| `ValPatchProofs.VisitFails` | app/upgrades/v520/patch.go:55-115 | A visit to an existing delegation returns no error but a failed send, from a solvent state only to a refused recipient |
| `ValPatchProofs.VisitCrashesIff` | app/upgrades/v520/patch.go:55-115 | A visit panics exactly when, with shares, the period cannot be ended or the rewards cannot be calculated |
| `ValPatchProofs.PassFailsOnlyBlocked` | app/upgrades/v520/patch.go:29-129 | Solvency carries through the pass: from a solvent state a failed send is always to a recipient the bank refuses |
| `Patcher.Keepers.DecrementReferenceCount` | app/upgrades/v520/patch.go:438-449 | Lowers one count in place, deletes the record at zero, refuses at zero |
| `Patcher.Keepers.WithdrawDelegationRewards` | app/upgrades/v520/patch.go:261-378 | Pays as specified and reports the coins, or one zero coin of the base denom when none were paid; a failed send changes nothing, nor does a panic, except that the reference-count one finds coins, outstanding rewards and pool already updated |
| `Patcher.Keepers.SettleRewards` | app/upgrades/v520/patch.go:325-356 | Outstanding, pool, count and starting info after the transfer; on the reference-count panic only the first two |
| `Patcher.Keepers.InitializeDelegation` | app/upgrades/v520/patch.go:452-482 | Takes a reference on the last record and stores the truncated stake at this height |
| `Patcher.Keepers.VisitDelegation` | app/upgrades/v520/patch.go:55-115 | The inner loop body makes the specified step, error or panic |
| `Patcher.Keepers.PatchValidator` | app/upgrades/v520/patch.go:44-129 | The inner loop visits every delegation of one validator, then writes the ghost event where due, and touches no other validator |
| `Patcher.Keepers.CustomValPatch` | app/upgrades/v520/patch.go:29-129 | A completed call visited every delegation of every validator and left the state and count those visits give; from exact counts it never ends in a refcount panic or the not-patched panic; its only error is a failed send, from a solvent state only to a refused recipient |
| `Patcher.CompletePassGuarantees` | app/upgrades/v520/patch.go:29-129 | What a completed patch leaves: same surplus, no delegation paid twice, and off the ghost validator exact counts and nothing left to patch |
| `PatchSample.SamplePatch` | app/upgrades/v520/patch.go:55-115 | A state with exact counts on which the patch applies and pays: the hypotheses of the results above are met together |
| `LegacyParams.PrefixedKeysDistinct` | app/upgrades/v6_1/params_migrate.go:214-219 | Keys of different subspaces never coincide |
| `LegacyParams.FillMeaning` | app/upgrades/v6_1/params_migrate.go:203-212 | Each field is the legacy value under its subspace and key when that is non-empty, decodes and is not a refused nil, else the default; no other field changes |
| `LegacyParams.MigrationKeepsParams` | app/upgrades/v6_1/params_migrate.go:68-176 | Completed or stopped, params already present are kept, and only the listed modules gain any |
| `LegacyParams.MigratedModules` | app/upgrades/v6_1/params_migrate.go:68-176 | Every module with a keeper ends with its own params if it had some, else subspace values over defaults |
| `LegacyParams.MigratedFields` | app/upgrades/v6_1/params_migrate.go:68-176 | The same of every module the migration writes, read off the legacy store |
| `LegacyParams.LegacyKeyLands` | app/upgrades/v6_1/params_migrate.go:68-176 | For each of the eleven legacy keys: a value that decodes ends up in its module, otherwise the default stays |
| `LegacyParams.StopsAt` | app/upgrades/v6_1/params_migrate.go:44-58 | The steps stop at the first module whose params its keeper refuses, with exactly the earlier modules written |
| `LegacyParams.SettledModules` | app/upgrades/v6_1/params_migrate.go:68-176 | Where all modules have params the migration writes none and cannot fail |
| `LegacyParams.Migration.MigrateOne` | app/upgrades/v6_1/params_migrate.go:68-88 | One module step writes exactly its specified params, or none on error |
| `LegacyParams.Migration.WipeStore` | app/upgrades/v6_1/params_migrate.go:221-235 | Empties the store by collecting keys first, and counts them |
| `LegacyParams.Migration.MigrateLegacyParams` | app/upgrades/v6_1/params_migrate.go:26-66 | Succeeds exactly when every step does; then the legacy store is empty; on any error or panic it is unchanged, the module that stopped it is named, and the params are exactly those of the steps before |
| `LegacyParams.MigrationIdempotent` | app/upgrades/v6_1/params_migrate.go:22-66 | A second run succeeds and changes no module, whatever the legacy store then holds |

## Left out

- LegacyParams.Migration.MigrateLegacyParams: takes the outcome of the hashmerchant step as an input, because that keeper is not part of this model.
- SecondPass.SecondPassCount: takes slash events in store order, as the key-value store keeps them.
- Store names that come from libraries (such as packetfowardmiddleware) are spelled out as literals.
- DenomTrace.ReceivePacketCallback: address codecs, packet decoding and the contract call enter as inputs, because they are library code; the transfer carries base denom and trace, not their hashed form.
- Skipped upgrade heights, and an upgrade-info file edited by hand.
- Old tree versions that stay on disk after a store leaves the commit, transient and memory stores, and the trees' hashing itself.
- Overflow of heights, periods and counts at 64 bits; varints, CID fields and prefixes do model their widths.
- Staking hooks that run when a delegation without shares is removed.
- The `memKV` store, its iterator, and the light-client VM and ics23 calls in app/wasmlc/verify.go; a proof is given by its own marshalled bytes.
- Text forms of CIDs (base58, base32, multibase), JSON and hashing in cmd/ipfs.
- Readers that return data together with an error, or whose ReadByte and Read disagree.
- The v5, v6 and v6.2 handlers beyond their keeper writes, which are arbitrary in the model.
- Events, logging, telemetry and the debug output of the v5.2.0 patch.
- Node start-up, command line, genesis code and module wiring.
