# AUGECOIN in Dafny

A model of four connected parts of the AUGECOIN node, with proofs about every input, every reachable state and every
run of the model.

**Contracts.** The AUGE20 token is a byte-level program over a buffering host: big-endian cells at keys made of the
contract id, a tag and an account. The engine runs it on a snapshot, sorts the harvested write log and hands back
writes that the caller applies only on success. `Auge20` is the program's meaning, `Auge20Guest` the same program step
by step over the host object, `WasmHost` the host and the harvest, `Engine` the four engine entry points, `StoredCode` what
they do with stored code, and `World` all runs of them over one store, with arbitrary other contracts in between;
`Creations` says what the ids of contracts and code stand for, `Refusals` what is answered to calls not carried out. `TokenLedger` is the abstract ledger that
the cells refine, `NativeToken` the second implementation kept beside it, `CodeStore` the code registry,
`StateOverlay` the execution overlay with its incremental byte counter, `BlockOverlay` the block-level overlay,
`BlockSnapshot` contract snapshots taken through it, `Locality` what of a snapshot a call depends on, `BlockRuns` whole
blocks of engine calls through the overlay, and `ForgedBalance` a block on which conservation fails.

**Operations, blocks and light proposals.** `Operations`, `PayloadCodec` and `OperationIO` are the operation codec as
functions and as cursor and buffer loops; `Blocks`, `BlockIO`, `Merkle` and `Proposal` the block codec, builder, Merkle
root and proposal; `LightBlocks` the way from a proposal back to the leader's block.

**Mempool.** `Pool` is the mempool as a plain list, `Admission` its checks, `AdmissionRules` and `PoolRules` what they and
every operation on the pool come to in terms of payloads, accounts and nonces, `PoolIndex` the three derived indexes,
`Mempool` the indexed class that refines the list on every run, `Removals` what the bulk removals leave, and
`Reachable` runs from the empty pool on which it does less than its words promise.

**Consensus.** `Validators` is the validator set, `ValidatorRules` what each step does member by member, `Quorum` the
signature count.

## Conventions

- The digest is an arbitrary function from bytes to 64 bytes. Claims about hashes say "equal, or here are two different
  inputs with one digest"; injectivity is never assumed. Signature verification is an arbitrary predicate, and a key
  that is no curve point accepts nothing. Fuel is an outcome chosen freely: exhausted, or finished after some units.
- Hash maps and hash sets are drained in an arbitrary order, so results that do not mention an order hold for all.
- Integers are unbounded; 64-bit wrap-around, saturation, checked addition and the casts of lengths to 16 and 32 bits
  are written out where the code has them. Additions the code leaves unchecked wrap, as in a release build.
- Encoders are written in front of the bytes that follow them and decoders return the bytes they leave, so a round trip
  also says where the reader stops.
- Clocks, chain state and the module validator's verdict are parameters.

## Where the code departs from its own words

- The native token is kept for equivalence, but a self-transfer credits without the debit
  (`NativeToken.SelfTransferInflates`); under the storage cap that is exactly where the tokens part
  (`NativeToken.TokensAgree`).
- Texts longer than 64 bytes pass the engine's own checks and are refused by the token program
  (`TokenLedger.InstantiateImplements`).
- A snapshot is described as never showing another contract's data, but the overlay's scan merges buffered keys without
  testing the prefix (`BlockOverlay.ScanExact`). Within a block the snapshot may then show another contract's cells, depend
  on hash-map order, or slice out of range after an upload (`BlockSnapshot.LeakAlone`, `BlockSnapshot.OrderMatters`,
  `BlockSnapshot.UploadThenSnapshot`); `BlockSnapshot.SnapshotExact` says exactly when it is right. Blocks of tokens are safe
  from that (`BlockRuns.TokenBlockConserves`), but stored code earlier in the block can make a token's balances exceed its
  supply (`ForgedBalance.ForgedBlock`); `BlockSnapshot.TokenCellsRight` is the exact condition.
- Expiry is described as evicting every orphaned nonce, but the cascade is one pass (`Reachable.CascadeStops`,
  `Pool.ExpiryGapFree`).
- Committed operations without senders are described as removed by exact equality, but equality of address receivers
  overlooks the public key (`crates/augecoin-crypto/src/address.rs:19-23`; `Reachable.TwinSurvives`,
  `Removals.CommittedSenderless`).
- The nonce expected behind the last 64-bit nonce, the validator id counter and the code id counter wrap
  (`Reachable.NonceWraps`, `Validators.CounterWraps`, `CodeStore.CodeCounterWraps`); each has the exact condition beside it.
- Code records whose id spells "hash" in its upper half are kept among the hash entries (`BlockOverlay.CodeRouted`); reads
  go the same way, so nothing is lost.
- Nonces of single-account operations are checked but not remembered, so one may be pending twice
  (`Reachable.SameNonceTwice`, `Pool.AdmitShares`).
- An activation with a future height can leave nobody active (`Validators.StepActive`), and then every signature list is
  a quorum (`Quorum.NobodyActive`).

## Model

| member | source | states |
|---|---|---|
| `World.RunRefines` | crates/augecoin-contracts/src/engine.rs:585-715 | From the empty store, after every interleaving of uploads, token and stored-code creations and calls, accepted or refused, each token's cells are exactly an abstract ledger stepped by the accepted calls; other contracts never disturb it. |
| `World.RunConserves` | crates/augecoin-auge20-wasm/src/lib.rs:481-606 | On every run the balance cells of each token add up to its supply cell and stay within the maximum supply. |
| `World.OverflowUnreachable` | crates/augecoin-auge20-wasm/src/lib.rs:481-606 | In a reachable store no transfer and no burn reports overflow, and a mint does only when the new supply itself would pass 2^64. |
| `World.QueryExact` | crates/augecoin-contracts/src/engine.rs:699-715 | After any run a balance, supply or info query runs out of fuel or returns bytes that decode to that ledger's own answer. |
| `World.InvokeExact` | crates/augecoin-contracts/src/engine.rs:653-696 | A token call is accepted exactly when the ledger accepts it and the gas suffices, fails with the ledger's own error otherwise, and on success leaves the ledger's next state and event while every other contract's key space and all metadata stay as they were. |
| `World.CreateExact` | crates/augecoin-contracts/src/engine.rs:585-651 | A token is created exactly when its parameters are acceptable, its id is unused and gas suffices; then its cells are the initial ledger and no other contract changes. |
| `Creations.IdBinds` | crates/augecoin-contracts/src/lib.rs:596-605 | Creations that differ in owner, code id or initialization data have different contract ids, or two explicit inputs agree in the digest bytes ids are made of. |
| `Creations.RecordsAreCreated` | crates/augecoin-contracts/src/engine.rs:214-280 | Every contract on record after a run was created by an accepted creation of that run with that id. |
| `Creations.DuplicatesAreSame` | crates/augecoin-contracts/src/engine.rs:237-240 | After any run a creation is refused as a duplicate only if the very same creation was accepted in it, or a digest agreement is exhibited. |
| `Creations.NewTokenCreated` | crates/augecoin-contracts/src/engine.rs:585-651 | From every reachable store an acceptable token that was not created before is created, given gas and fuel, or a digest agreement is exhibited. |
| `StoredCode.CallExact` | crates/augecoin-contracts/src/engine.rs:374-422 | A call of stored code is accepted exactly when record and code decode, the gas covers 5000, the fuel lasts, the code does not trap and its changes stay within 256 calls, a mebibyte charged and 64 KiB left written; then its key space is patched by its calls in order, its decodable events come out in order and nothing else changes; otherwise the error names what stopped it. |
| `StoredCode.CreateExact` | crates/augecoin-contracts/src/engine.rs:231-279 | The same for a creation with stored code, which also needs a new id and leaves the metadata record and the creation event. |
| `StoredCode.SurfaceExact` | crates/augecoin-contracts/src/engine.rs:842-846 | The surfaced events are those raw events that decode, each once and in order. |
| `Refusals.UploadRefused` | crates/augecoin-contracts/src/engine.rs:157-166 | An upload is refused for its gas, then its size, then the validator's verdict, each with its own error. |
| `Refusals.TokenRefused` | crates/augecoin-contracts/src/engine.rs:593-625 | A token is refused for its gas, then its parameters, then a contract already there, then exhausted fuel, then over-long texts, each with its own error. |
| `Refusals.UnknownContract` | crates/augecoin-contracts/src/engine.rs:383-386 | Calls and queries of a contract that is not on record report that it was not found. |
| `Refusals.Undecoded` | crates/augecoin-contracts/src/engine.rs:663-667 | A call that does not decode is refused as invalid data by either token, before anything runs. |
| `Refusals.NativeOutOfGas` | crates/augecoin-contracts/src/engine.rs:424-456 | A native call below its base cost, 7500 for a mint and 5000 otherwise, is refused for gas. |
| `World.StepKeeps` | crates/augecoin-contracts/src/engine.rs:214-423 | An accepted call of any kind keeps store and ledgers in agreement; of a refused call nothing is applied. |
| `TokenLedger.StepGood` | crates/augecoin-auge20-wasm/src/lib.rs:481-606 | Every accepted transfer (to oneself included), mint and burn conserves the sum of balances against the supply and respects the cap. |
| `TokenLedger.TransferMoves` | crates/augecoin-auge20-wasm/src/lib.rs:481-520 | A transfer moves exactly the amount between two accounts, and to oneself it changes no balance at all. |
| `TokenLedger.TransferMeans` | crates/augecoin-auge20-wasm/src/lib.rs:481-520 | A transfer is accepted exactly for a positive amount within the balance, with the error of the first check that fails; the supply and every third balance stay, and the event names both parties and the amount. |
| `TokenLedger.MintMeans` | crates/augecoin-auge20-wasm/src/lib.rs:521-565 | A mint is accepted exactly for a positive amount by the owner while enabled and within the cap, errors in that order; it credits the recipient alone and raises the supply by the amount. |
| `TokenLedger.BurnMeans` | crates/augecoin-auge20-wasm/src/lib.rs:566-606 | A burn is accepted exactly for a positive amount within the balance while enabled; it debits the sender alone and lowers the supply by the amount. |
| `TokenLedger.GenesisMeans` | crates/augecoin-auge20-wasm/src/lib.rs:364-449 | A new token has its parameters and its creator as owner, who holds the whole initial supply. |
| `TokenLedger.AnswerMeans` | crates/augecoin-auge20-wasm/src/lib.rs:634-682 | A balance query answers that account's balance, a supply query the supply, an info query every field of the configuration. |
| `TokenLedger.ExecuteImplements` | crates/augecoin-auge20-wasm/src/lib.rs:452-609 | On cells that hold a conserving ledger the byte-level program behaves as the ledger step: same decision, same error code, same event, and the new cells hold the new ledger. |
| `TokenLedger.InstantiateImplements` | crates/augecoin-auge20-wasm/src/lib.rs:364-449 | Where no cell of the token exists yet, whatever else its key space holds, instantiation writes the cells of the initial ledger exactly for parameters whose texts are non-empty and at most 64 bytes, and reports a serialization error for longer ones. |
| `TokenLedger.QueryAnswers` | crates/augecoin-auge20-wasm/src/lib.rs:612-682 | The query entry point answers from the cells what the ledger would answer, in a form the host's decoder reads back. |
| `Auge20.CellsApart` | crates/augecoin-auge20-wasm/src/lib.rs:220-231 | The token-state, supply and balance cells of a contract never share a key, and balances of different accounts differ in key. |
| `Auge20.AnswersAreNotErrors` | crates/augecoin-auge20-wasm/src/lib.rs:350-361 | No encoded answer can be mistaken for the two-byte error report. |
| `Auge20Guest.RunInstantiate` | crates/augecoin-auge20-wasm/src/lib.rs:364-449 | The step-by-step entry point over the host object returns and writes what the program's meaning says, trap and error report included. |
| `Auge20Guest.RunExecute` | crates/augecoin-auge20-wasm/src/lib.rs:452-609 | Decoding, state loading and dispatch step by step against the host have the program's meaning: output, storage effect and emitted event. |
| `Auge20Guest.RunTransfer` | crates/augecoin-auge20-wasm/src/lib.rs:481-520 | The debit is stored before the recipient is read again, so the in-place sequence has the transfer's meaning even when both are one account; a refusal emits nothing and leaves the host as it was, except that the overflow refusal comes after the debit was buffered. |
| `Auge20Guest.RunMint` | crates/augecoin-auge20-wasm/src/lib.rs:521-565 | The guarded sequence of supply and balance updates has the mint's meaning; a refusal emits nothing and leaves the host as it was, except that the recipient's overflow refusal comes after the new supply was buffered. |
| `Auge20Guest.RunBurn` | crates/augecoin-auge20-wasm/src/lib.rs:566-606 | The guarded sequence of supply and balance updates has the burn's meaning; whenever it does not go through, host and events are as they were. |
| `TokenLedger.RefusalsComeFirst` | crates/augecoin-auge20-wasm/src/lib.rs:481-565 | On cells that hold a conserving ledger a transfer or mint goes through exactly when it passes the checks before its first write, so the late refusals never happen and every refusal leaves the cells alone. |
| `Auge20Guest.RunQuery` | crates/augecoin-auge20-wasm/src/lib.rs:612-682 | Reading the cells step by step returns the encoded answer or the error report and changes nothing. |
| `NativeToken.TokensAgree` | crates/augecoin-contracts/src/engine.rs:424-578 | From the same ledger and under the native storage cap the two tokens agree on a call (both refuse, or both accept with the same event and next ledger) exactly when it is not a transfer to oneself of a positive amount within the balance. |
| `NativeToken.NativeImplements` | crates/augecoin-contracts/src/engine.rs:424-578 | For every call, self-transfers included, the native token accepts exactly what its own ledger step accepts and its storage counter has room for, and then holds that step's ledger, with the counter in its record raised by the one cell the call may add; the step is the ledger's except that an affordable self-transfer only credits, and is refused when the credit overflows. |
| `NativeToken.SelfTransferInflates` | crates/augecoin-contracts/src/engine.rs:457-484 | A native self-transfer of any affordable amount, where accepted, raises the balance and so the sum of balances by exactly the amount, where the other token leaves both as they were; it is accepted exactly when the sum fits 64 bits and the counter is within its cap. |
| `WasmHost.HostIsPatchedMap` | crates/augecoin-contracts/src/engine.rs:932-1037 | While no limit is hit, after any storage calls each read sees the last write or delete of its key, that is, the base map patched in call order. |
| `WasmHost.ExceededSticks` | crates/augecoin-contracts/src/engine.rs:967-983 | Once a mutation is refused the host stays marked for the rest of the run. |
| `WasmHost.MarkedExactly` | crates/augecoin-contracts/src/engine.rs:967-983 | A run is marked exactly when it makes more than 256 changes or is charged more than a mebibyte for keys and values, deletes included. |
| `WasmHost.HarvestExact` | crates/augecoin-contracts/src/engine.rs:823-852 | A harvest is refused exactly when the run was marked or leaves more than 64 KiB of values written. |
| `WasmHost.HarvestOrderFree` | crates/augecoin-contracts/src/engine.rs:823-852 | The decision and the sorted writes do not depend on the order in which the hash maps yield the log. |
| `WasmHost.HarvestIsolated` | crates/augecoin-contracts/src/engine.rs:823-852 | Applying harvested writes makes this contract's next snapshot the host's final view, leaves every other contract's snapshot as it was and every system key as the engine's own writes leave it. |
| `WasmHost.LogKeysAreState` | crates/augecoin-contracts/src/engine.rs:1021-1033 | Every key a contract can write lies under its own state prefix. |
| `WasmHost.LogCharged` | crates/augecoin-contracts/src/engine.rs:967-983 | The bytes charged during a run bound the value bytes of its log, so a run under the cap also passes the harvest's own total. |
| `WasmHost.HostObject.StorageRead` | crates/augecoin-contracts/src/engine.rs:995-1003 | The buffered read order (write, delete mark, base) gives the host's view. |
| `WasmHost.HostObject.StorageWrite` | crates/augecoin-contracts/src/engine.rs:1004-1010 | Updating map, delete set, counters and mark in place is one step of the host's value; a refused write records nothing. |
| `WasmHost.HostObject.StorageDelete` | crates/augecoin-contracts/src/engine.rs:1011-1017 | Updating map, delete set, counters and mark in place is one step of the host's value; a refused delete records nothing. |
| `WasmHost.HostObject.TakeLog` | crates/augecoin-contracts/src/engine.rs:1021-1033 | Draining yields each touched key once, with its last value or a delete, in an arbitrary order, and empties the buffers. |
| `WasmHost.HarvestWasm` | crates/augecoin-contracts/src/engine.rs:823-852 | Draining, totalling in log order with early refusal and sorting returns the canonical result whichever order the drain used. |
| `WriteSort.SortCanonical` | crates/augecoin-contracts/src/engine.rs:823-852 | Two logs with the same distinct-key entries sort to the same list and have the same byte total. |
| `WriteSort.LessMeans` | crates/augecoin-contracts/src/engine.rs:850 | Keys are ordered by their first differing byte, a proper prefix first. |
| `Engine.AllocateFuel` | crates/augecoin-contracts/src/engine.rs:897-905 | Allotment fails exactly when the base cost does not fit the gas limit; otherwise all of the rest is handed out, up to the ceiling of a signed 64-bit counter. |
| `Engine.GasWithinLimit` | crates/augecoin-contracts/src/engine.rs:653-696 | An accepted token call reports at least its base cost and at most its gas limit. |
| `ContractStore.KeyStateInjective` | crates/augecoin-contracts/src/store.rs:110-115 | State keys of different contracts or different local keys differ. |
| `ContractStore.SystemKeysOutside` | crates/augecoin-contracts/src/store.rs:24-68 | No code, contract, balance, supply or token record key and not the code counter can be a state key. |
| `ContractStore.MemoryContractStore.ApplyWrites` | crates/augecoin-contracts/src/store.rs:346-357 | Applying a batch in order is the map patched by it. |
| `ContractStore.MemoryContractStore.TakeSnapshot` | crates/augecoin-contracts/src/engine.rs:917-929 | Slicing the prefix off a prefix scan gives exactly the contract's local keys and values. |
| `ContractTypes.InitRoundTrip` | crates/augecoin-contracts/src/lib.rs:292-330 | Token parameters with UTF-8 texts decode from their encoding. |
| `ContractTypes.CallRoundTrip` | crates/augecoin-contracts/src/lib.rs:335-388 | Every token call decodes from its encoding. |
| `ContractTypes.CallCanonical` | crates/augecoin-contracts/src/lib.rs:357-377 | Whatever decodes as a call is that call's encoding byte for byte: nothing may follow or vary. |
| `ContractTypes.EventRoundTrip` | crates/augecoin-contracts/src/lib.rs:452-564 | Every event decodes from its encoding. |
| `ContractTypes.ResultRoundTrip` | crates/augecoin-contracts/src/engine.rs:64-121 | Every query answer whose texts are UTF-8 decodes from its encoding. |
| `ContractTypes.StateRoundTrip` | crates/augecoin-auge20-wasm/src/lib.rs:273-316 | The token-state cell decodes to the state that was stored. |
| `ContractTypes.MetaRoundTrip` | crates/augecoin-contracts/src/store.rs:444-473 | Contract metadata decodes from its encoding. |
| `ContractTypes.CodeRoundTrip` | crates/augecoin-contracts/src/store.rs:369-390 | Code records decode from their encoding. |
| `StateOverlay.StepExact` | crates/augecoin-contracts/src/engine.rs:2121-2175 | From an exact overlay one call marks it precisely when it breaks a size limit or the cap on the true total; otherwise view and counter stay exact, and neither clamp at zero is ever needed. |
| `StateOverlay.RunExact` | crates/augecoin-contracts/src/engine.rs:2095-2175 | In every unmarked run the counter equals the value bytes of the base patched by the run, write and delete keys stay disjoint, and a base within the cap stays within it. |
| `StateOverlay.MarkSticks` | crates/augecoin-contracts/src/engine.rs:2177-2179 | Once the limit mark is set it stays set. |
| `StateOverlay.MarkedExactly` | crates/augecoin-contracts/src/engine.rs:2121-2154 | A run is marked exactly when some call in it was forbidden on the plain map reached at that point. |
| `StateOverlay.OverCap` | crates/augecoin-contracts/src/engine.rs:2121-2154 | A write over the cap is refused and marks the run, is not charged, and is read back all the same. |
| `StateOverlay.CommitIsView` | crates/augecoin-contracts/src/engine.rs:2423-2440 | Committing the log, in whatever order it drains, gives exactly the map that storage reads showed. |
| `StateOverlay.ContractStateOverlay.StorageWrite` | crates/augecoin-contracts/src/engine.rs:2121-2154 | The in-place update of writes, deletes, counter and mark, and its answer, are one write of the overlay's value, the over-cap path that records without charging included. |
| `StateOverlay.ContractStateOverlay.StorageDelete` | crates/augecoin-contracts/src/engine.rs:2156-2175 | The in-place update is one delete of the overlay's value. |
| `StateOverlay.ContractStateOverlay.TakeLog` | crates/augecoin-contracts/src/engine.rs:2184-2194 | Draining lists each buffered write and delete once, in some order, and empties both. |
| `BlockOverlay.GetIsPatched` | crates/augecoin-contracts/src/store.rs:327-343 | After any run of puts and deletes a read equals the persisted store patched by them. |
| `BlockOverlay.PersistIsView` | crates/augecoin-contracts/src/store.rs:275-300 | Persisting the routed writes in any order makes a plain reader return for every key what the overlay showed. |
| `BlockOverlay.ScanExact` | crates/augecoin-contracts/src/store.rs:303-325 | A prefix scan equals the prefix filter of the patched store exactly when every buffered live key starts with the prefix and no persisted key under it is routed to another family. |
| `BlockOverlay.StateScanExact` | crates/augecoin-contracts/src/store.rs:303-325 | For a contract's own state prefix the scan is right exactly when every buffered live key starts with that prefix. |
| `BlockSnapshot.SnapshotExact` | crates/augecoin-contracts/src/engine.rs:917-928 | A snapshot through the block overlay is in range, the same for every order of the scan, and equal to the contract's cells with the buffered changes applied, exactly when every live buffered key is as long as the prefix and this contract's own cell at what follows holds the same value. |
| `BlockSnapshot.TakeSnapshot` | crates/augecoin-contracts/src/engine.rs:917-928 | Scanning, slicing and collecting in the hash map's own order yields the sliced scan in some order, or fails exactly when a scanned key is shorter than the prefix. |
| `BlockSnapshot.ForeignCellLeaks` | crates/augecoin-contracts/src/engine.rs:917-928 | Another contract's buffered cell appears, in every order, at the same local key of a contract that has no such cell. |
| `BlockSnapshot.LeakAlone` | crates/augecoin-contracts/src/engine.rs:917-928 | In a block whose only change is another contract's cell, the snapshot of an empty contract is that cell instead of nothing. |
| `BlockSnapshot.OrderMatters` | crates/augecoin-contracts/src/engine.rs:917-928 | Where the contract has a different cell of its own at that local key, two orders of one scan give the two different values. |
| `BlockSnapshot.TokenCellsRight` | crates/augecoin-contracts/src/engine.rs:917-928 | A token's ledger is read right in every order of the scan exactly when every live key whose tail is one of the token's cell keys holds the value of the token's own cell. |
| `BlockSnapshot.TidyClear` | crates/augecoin-contracts/src/store.rs:36-115 | A buffer of nothing but cells of any tokens and contract records meets that condition for every token, and none of its keys is too short to slice. |
| `Locality.ExecuteLocal` | crates/augecoin-auge20-wasm/src/lib.rs:220-317 | On two snapshots with the same cells of the token, whatever else they hold, the token program decides, writes, reports and emits the same. |
| `Locality.PerformLocal` | crates/augecoin-contracts/src/engine.rs:214-423 | A creation or call has the same outcome on stores with the same records and, for a token call, the same cells of that token: nothing else of a snapshot matters to the engine. |
| `BlockRuns.TokenBlockConserves` | crates/augecoin-contracts/src/store.rs:259-343 | From any store that holds ledgers, every block of token creations and token calls, on any number of tokens, has a run; in every order of every scan it buffers exactly the changes the calls make on a plain store; and both the overlay's view and the store persisted in any order hold the ledgers advanced by the accepted calls, conservation included. |
| `BlockRuns.BlockRefines` | crates/augecoin-contracts/src/engine.rs:214-423 | The same buffer for every block, uploads and stored code included, in which each token call finds the buffer clear of foreign values for that token's cells. |
| `BlockRuns.BlockHasRun` | crates/augecoin-contracts/src/engine.rs:917-928 | Such a block runs to its end exactly when no call that gets as far as taking a snapshot finds a live key shorter than the prefix. |
| `BlockRuns.BlockConserves` | crates/augecoin-contracts/src/store.rs:275-300 | Such a block, persisted in any order, leaves cells that are the ledgers advanced by its accepted calls. |
| `BlockRuns.OneContractGuarded` | crates/augecoin-contracts/src/engine.rs:374-423 | Any number of calls on one contract, token or stored code, make such a block, in range, with every snapshot right. |
| `ForgedBalance.ForgedBlock` | crates/augecoin-contracts/src/engine.rs:917-928 | The condition is needed: stored code writes one cell of its own named like a balance cell the token lacks, then that account transfers; the block has a run, and after every run the token's balance cells add up to the supply plus the value written. |
| `BlockSnapshot.UploadThenSnapshot` | crates/augecoin-contracts/src/engine.rs:917-928 | Once a block has accepted an upload of new code, every later snapshot in it, of any contract, slices out of range until something deletes the code counter. |
| `BlockOverlay.StateRouted` | crates/augecoin-contracts/src/store.rs:79-104 | Every contract state key is routed to the generic family that prefix scans read. |
| `BlockOverlay.RecordsRouted` | crates/augecoin-contracts/src/store.rs:79-104 | Each kind of record key, the code counter included, is routed to its own family. |
| `BlockOverlay.CodeRouted` | crates/augecoin-contracts/src/store.rs:83-88 | A code record goes to the code family except exactly when the upper half of its id spells "hash", where the test for hash entries takes it first. |
| `BlockOverlay.ContractOverlay.GetKey` | crates/augecoin-contracts/src/store.rs:327-334 | A read sees the buffered change first, a buffered delete included, and otherwise the family the key is routed to. |
| `BlockOverlay.ContractOverlay.PutKey` | crates/augecoin-contracts/src/store.rs:335-338 | A put is buffered over whatever was buffered for the key. |
| `BlockOverlay.ContractOverlay.DeleteKey` | crates/augecoin-contracts/src/store.rs:339-342 | A delete is buffered as a mark, so it hides the persisted value. |
| `BlockOverlay.ContractOverlay.IntoWrites` | crates/augecoin-contracts/src/store.rs:275-282 | The drained writes are the buffer's entries, each once and each routed by its key. |
| `BlockOverlay.ContractOverlay.ScanPrefix` | crates/augecoin-contracts/src/store.rs:303-325 | The merge loop over base entries and buffer, whatever order the buffer yields, computes the scan. |
| `CodeStore.RunRegistry` | crates/augecoin-contracts/src/engine.rs:149-210 | On every run whose distinct accepted uploads fit the id counter, ids are assigned consecutively from 2, the records are those uploads, and the hash index maps exactly their hashes to their ids, whatever else the run does. |
| `CodeStore.IndexInverse` | crates/augecoin-contracts/src/engine.rs:149-210 | Following the hash index leads to the record that carries the hash, and the record's hash leads back to its id. |
| `CodeStore.UploadExact` | crates/augecoin-contracts/src/engine.rs:149-210 | Uploading a known hash returns its id with no writes; a new hash takes the next id, and the registry is extended exactly when the counter has another id to give. |
| `Creations.CodeIdBinds` | crates/augecoin-contracts/src/lib.rs:588-592 | Two modules uploaded one after the other are answered with one code id only if they are the same bytes, or a digest agreement is exhibited. |
| `CodeStore.CodeCounterWraps` | crates/augecoin-contracts/src/engine.rs:186-201 | At the end of its range the counter starts again at zero and the next two uploads take ids 0 and 1, the latter reserved for the token. |
| `CodeStore.OthersKeepCode` | crates/augecoin-contracts/src/engine.rs:214-423 | No creation and no call, of tokens or stored code, touches a code record, the hash index or the counter. |
| `ContractStore.CodeKeysApart` | crates/augecoin-contracts/src/store.rs:24-61 | Code records, hash entries, contract records and the counter never share a key, and within a family different ids have different keys. |
| `Codec.Reader.Fixed` | crates/augecoin-contracts/src/codec.rs:112-120 | A bounds-checked read takes exactly the requested bytes or leaves the cursor in place. |
| `PayloadCodec.PayloadRoundTrip` | crates/augecoin-core/src/operation.rs:563-1057 | For each of the sixteen payload variants within the protocol's counts and field widths, decoding the encoding followed by any bytes returns the payload and stops exactly at those bytes. |
| `PayloadCodec.OperationRoundTrip` | crates/augecoin-core/src/operation.rs:1064-1095 | The same for whole operations with chain id and signatures. |
| `PayloadCodec.DecodeEncode` | crates/augecoin-core/src/operation.rs:1079-1095 | Decoding an encoding gives the operation back whatever bytes follow. |
| `PayloadCodec.EncodeInjective` | crates/augecoin-core/src/operation.rs:1064-1071 | Well-formed operations with equal encodings are equal. |
| `PayloadCodec.DecodedOk` | crates/augecoin-core/src/operation.rs:793-1095 | Whatever decodes is within the bounds of the format, so it has one encoding and that encoding determines it. |
| `PayloadCodec.WireTags` | crates/augecoin-core/src/operation.rs:542-561 | Each of the sixteen variants starts with its own type byte. |
| `PayloadCodec.UnknownTag` | crates/augecoin-core/src/operation.rs:793-800 | A first byte that is no operation type is named in the error. |
| `PayloadCodec.EncodeLength` | crates/augecoin-core/src/operation.rs:1064-1071 | An encoding within the bounds is shorter than 2^32 bytes, so the block's length casts lose nothing. |
| `Operations.CountedRoundTrip` | crates/augecoin-core/src/operation.rs:267-275 | A counted list of self-delimiting items within the maximum is itself self-delimiting and decodes to the items. |
| `Operations.ChangerInverts` | crates/augecoin-core/src/operation.rs:414-453 | Changers with valid names and signatures decode from their encodings and stop at what follows. |
| `Operations.PartsInvert` | crates/augecoin-core/src/operation.rs:377-412 | Senders, receivers and address receivers decode from their encodings and stop at what follows. |
| `OperationIO.FromBytes` | crates/augecoin-core/src/operation.rs:1079-1095 | The cursor-driven decoder with its counted loops computes the decoding function, error for error. |
| `OperationIO.ToBytes` | crates/augecoin-core/src/operation.rs:1064-1071 | The buffer-driven encoder with its loops computes the encoding function. |
| `OperationIO.TakePayload` | crates/augecoin-core/src/operation.rs:793-1057 | Each variant's cursor reads, in order, give the payload parser's result and leave the cursor behind the payload. |
| `OperationIO.WriteBody` | crates/augecoin-core/src/operation.rs:563-791 | Each variant's appends, in order, put the payload's encoding behind what was written before. |
| `Blocks.HeaderRoundTrip` | crates/augecoin-core/src/block.rs:95-154 | A header with a payload under 65536 bytes decodes from its encoding and stops at what follows. |
| `Blocks.LegacyHeader` | crates/augecoin-core/src/block.rs:116-154 | A header cut off before its chain id decodes as a chain-1 header. |
| `Blocks.LegacyBlockRefused` | crates/augecoin-core/src/block.rs:184-232 | A block cut off before the chain id never decodes as a block. |
| `Blocks.BlockRoundTrip` | crates/augecoin-core/src/block.rs:162-232 | Every block within the format's bounds, with its own header hash, survives encoding and decoding. |
| `Blocks.DecodedBlockOk` | crates/augecoin-core/src/block.rs:184-232 | Whatever decodes as a block is within the format's bounds, operations included, and carries its header's hash. |
| `Blocks.HeaderHashBinds` | crates/augecoin-core/src/block.rs:156-158 | Two well-formed headers with one digest are equal in every field, or their encodings collide. |
| `Blocks.BlockHashBinds` | crates/augecoin-core/src/block.rs:223-231 | Two decoded blocks with one block hash have the same header, or two header encodings collide. |
| `Proposal.BlockHashDetermines` | crates/augecoin-core/src/block.rs:156-158 | Blocks whose headers carry their own Merkle roots, with equally many operations and one block hash, have the same header and operations, or a collision is exhibited. |
| `Proposal.RebuiltHashDetermines` | crates/augecoin-core/src/proposal.rs:235-248 | The same for blocks rebuilt from proposals. |
| `Blocks.SizeIsLength` | crates/augecoin-core/src/block.rs:276-293 | For every block, in range or not, the computed size is the length of its encoding. |
| `Blocks.SelectBlockOperations` | crates/augecoin-core/src/block.rs:299-316 | The builder returns the longest prefix of the pending operations whose block fits, with its exact size; when the empty block does not fit it returns no operation. |
| `Blocks.OpHashBinds` | crates/augecoin-core/src/proposal.rs:36-38 | Well-formed operations with one hash are equal or exhibit a collision. |
| `BlockIO.HeaderFromBytes` | crates/augecoin-core/src/block.rs:116-154 | The cursor-driven decoder computes the header parser, default chain id included. |
| `BlockIO.HeaderToBytes` | crates/augecoin-core/src/block.rs:95-114 | The buffer-driven encoder computes the header encoding. |
| `BlockIO.BlockFromBytes` | crates/augecoin-core/src/block.rs:184-232 | The decoder that resumes behind the re-encoded header and reads counted operations and signatures computes the block decoding. |
| `BlockIO.BlockToBytes` | crates/augecoin-core/src/block.rs:162-182 | The encoder's loops compute the block encoding. |
| `BlockIO.ComputeOperationsMerkleRoot` | crates/augecoin-core/src/block.rs:245-269 | The block's own loop computes the recursive root of the operation hashes. |
| `Merkle.MerkleRoot` | crates/augecoin-core/src/proposal.rs:50-70 | The level loop terminates and computes the recursive root. |
| `Merkle.NextLevel` | crates/augecoin-core/src/proposal.rs:55-67 | One pass in chunks of two gives the next level, half as long rounded up; entry i is the digest of node 2i followed by node 2i+1, or by itself where it is the last. |
| `Merkle.RootBinds` | crates/augecoin-core/src/proposal.rs:50-70 | Different hash lists of equal length with one root exhibit a collision. |
| `Merkle.OddDuplicate` | crates/augecoin-core/src/proposal.rs:50-70 | An odd list of three or more and the same list with its last element repeated share a root, so equal length is needed. |
| `Merkle.OddDuplicateOnly` | crates/augecoin-core/src/proposal.rs:50-70 | Up to collisions that is the only list one longer with the same root. |
| `Proposal.ProposalRoundTrip` | crates/augecoin-core/src/proposal.rs:85-126 | A proposal within bounds decodes from its encoding and stops at what follows. |
| `Proposal.HashesDetermine` | crates/augecoin-core/src/proposal.rs:36-38 | Well-formed operation lists with equal hash lists are equal or exhibit a collision. |
| `Proposal.RootDetermines` | crates/augecoin-core/src/proposal.rs:45-70 | Equally many well-formed operations with one Merkle root are the same operations or exhibit a collision. |
| `BlockIO.ProposalFromBytes` | crates/augecoin-core/src/proposal.rs:99-126 | The cursor-driven decoder computes the proposal decoding. |
| `BlockIO.ProposalToBytes` | crates/augecoin-core/src/proposal.rs:85-97 | The buffer-driven encoder computes the proposal encoding. |
| `LightBlocks.LeaderBlockRebuilt` | crates/augecoin-core/src/proposal.rs:235-248 | A leader's proposal survives the wire, a holder of operations with all its hashes rebuilds a block with the proposed root, and that block is the leader's, byte for byte, or a collision is exhibited. |
| `LightBlocks.RebuiltAfterRun` | crates/augecoin-core/src/proposal.rs:235-248 | The same, wire and root included, for the residents of a mempool after any run that was offered only well-formed operations. |
| `LightBlocks.FetchExact` | crates/augecoin-core/src/mempool.rs:332-334 | Resolving hashes succeeds exactly when all are resident and yields resident operations with those hashes in order. |
| `Mempool.Mempool.Replay` | crates/augecoin-core/src/mempool.rs:145-501 | On every run of admissions, removals and evictions the vector with its three incrementally kept indexes does to the list what the plain list pool does, and ends with times parallel to operations and each index equal to what the list determines. |
| `Mempool.Mempool.ValidateAndAdmit` | crates/augecoin-core/src/mempool.rs:145-203 | Admission through the indexes gives the verdict, first error included, that scanning the list would give, and appends exactly on success. |
| `Mempool.Mempool.EvictExpired` | crates/augecoin-core/src/mempool.rs:216-279 | Collecting expired positions, lowering fronts in any hash order, one cascade pass and removal from the back leave the list without the expired and orphaned operations, with the count removed. |
| `Mempool.Mempool.EvictLowestPriority` | crates/augecoin-core/src/mempool.rs:283-296 | Drops exactly the oldest operations beyond the bound. |
| `Mempool.Mempool.Remove` | crates/augecoin-core/src/mempool.rs:298-312 | Removes and returns the one operation holding the nonce, or nothing when none holds it. |
| `Mempool.Mempool.RemoveStale` | crates/augecoin-core/src/mempool.rs:344-368 | Removes exactly the operations with a sender nonce behind the chain. |
| `Mempool.Mempool.RemoveCommitted` | crates/augecoin-core/src/mempool.rs:379-406 | Resolving committed operations through the nonce index or by comparison against the original layout removes exactly the positions the list determines. |
| `Mempool.Mempool.EvictAllForSender` | crates/augecoin-core/src/mempool.rs:455-484 | Removes exactly the operations that use a nonce of the account. |
| `Mempool.Mempool.Clear` | crates/augecoin-core/src/mempool.rs:322-328 | Empties the list and all indexes. |
| `Mempool.Mempool.GetByHash` | crates/augecoin-core/src/mempool.rs:332-334 | The constant-time lookup answers as a scan of the list by hash would. |
| `Mempool.Mempool.RebuildIndex` | crates/augecoin-core/src/mempool.rs:486-501 | Rebuilding makes both nonce indexes those of the list. |
| `Mempool.Mempool.DropAt` | crates/augecoin-core/src/mempool.rs:260-277 | Removing positions from the back while deleting hashes one by one leaves the kept operations and times in order and all indexes exact. |
| `Mempool.CollectFronts` | crates/augecoin-core/src/mempool.rs:236-246 | In whatever order expired positions are visited, the fronts are the smallest expired nonce of each account. |
| `PoolIndex.PositionsExact` | crates/augecoin-core/src/mempool.rs:193-200 | The nonce index holds exactly the sender nonces present, each with the last position holding it. |
| `PoolIndex.PositionOf` | crates/augecoin-core/src/mempool.rs:193-200 | With unique nonces the index gives each nonce's one position. |
| `PoolIndex.NoncesExact` | crates/augecoin-core/src/mempool.rs:193-200 | The per-account entry exists exactly for accounts with a tracked nonce and is the true maximum. |
| `PoolIndex.LookupIsScan` | crates/augecoin-core/src/mempool.rs:332-334 | With distinct hashes the hash index agrees with a linear scan. |
| `PoolIndex.ByHashRemove` | crates/augecoin-core/src/mempool.rs:270-272 | Removing a position removes exactly its hash from the hash index. |
| `Pool.RunOk` | crates/augecoin-core/src/mempool.rs:145-501 | On every run times stay parallel to operations, the bound holds, hashes are pairwise distinct, no sender nonce is held twice and every resident has the pool's chain id. |
| `Pool.RunResidents` | crates/augecoin-core/src/mempool.rs:145-501 | Nobody is resident who was not there at the start or offered during the run. |
| `PoolRules.AdmissibleExact` | crates/augecoin-core/src/mempool.rs:145-187 | An operation is admitted exactly when there is room, chain id and hash are right, everybody concerned has signed, no sender nonce is pending, each nonce it uses up is the one due, and value, account states and fee are right, payload by payload. |
| `PoolRules.RefusedFirst` | crates/augecoin-core/src/mempool.rs:151-170 | A full pool, a foreign chain and a known hash are reported in this order, before any account is looked up. |
| `PoolRules.RefusedNext` | crates/augecoin-core/src/mempool.rs:172-187 | Past those, signature errors come before the first pending sender nonce, that before a nonce that is not due, and value and fee last. |
| `PoolRules.StaleExact` | crates/augecoin-core/src/mempool.rs:344-368 | After the removal of stale operations exactly those without a sender nonce behind the chain are left, in order and with their times. |
| `PoolRules.SenderExact` | crates/augecoin-core/src/mempool.rs:455-484 | After quarantine exactly the operations that use up no nonce of the account are left, in order. |
| `PoolRules.RemoveExact` | crates/augecoin-core/src/mempool.rs:298-312 | After one nonce is removed exactly the operations whose senders do not carry it are left, in order. |
| `PoolRules.LowestExact` | crates/augecoin-core/src/mempool.rs:283-296 | Eviction down to the bound leaves the newest operations, as many as the bound allows. |
| `PoolRules.ClearExact` | crates/augecoin-core/src/mempool.rs:322-328 | Clearing leaves nobody and keeps the admin key. |
| `PoolRules.CommittedExact` | crates/augecoin-core/src/mempool.rs:379-406 | After confirmation exactly those operations are left, in order, that share no sender nonce with a committed one and are not the first to equal a committed operation without senders, public keys of address receivers aside. |
| `Pool.SharedNonce` | crates/augecoin-core/src/mempool.rs:536-567 | Two residents use one account nonce only if one of them uses it without a sender carrying it (a single-account operation, or a data operation's own account). |
| `Pool.AdmitShares` | crates/augecoin-core/src/mempool.rs:723-751 | Unless the account has the last 64-bit nonce pending, an admitted operation uses a nonce that a resident uses already exactly when a resident uses it untracked. |
| `Reachable.SameNonceTwice` | crates/augecoin-core/src/mempool.rs:687-751 | Two signed key changes of one account with one nonce are both admitted to the empty pool; or two encodings collide. |
| `Pool.RunOrdered` | crates/augecoin-core/src/mempool.rs:687-751 | On every run, whatever the chain does between steps, a later operation's tracked nonce of an account is larger than any earlier one's, provided no offered nonce is the last 64-bit value. |
| `Pool.AdmitOrdered` | crates/augecoin-core/src/mempool.rs:723-751 | An admission keeps that order exactly when none of its senders already has the last 64-bit nonce pending. |
| `Reachable.NonceWraps` | crates/augecoin-core/src/mempool.rs:735-740 | With the chain at the last nonce but one, signed payments with it and with the last nonce are admitted; after the first is removed the expectation behind the last nonce wraps, and the first is admitted again behind the larger nonce; or two encodings collide. |
| `Pool.SteadyRun` | crates/augecoin-core/src/mempool.rs:172-200 | With the chain fixed and single-sender transfers, any run of admissions, expiries and quarantines keeps each account's pending nonces exactly the interval from its nonce on chain to the largest pending one. |
| `Pool.RemovalGapFree` | crates/augecoin-core/src/mempool.rs:204-215 | Any removal keeps chains unbroken exactly when it takes everything above what it takes. |
| `Pool.ExpiryGapFree` | crates/augecoin-core/src/mempool.rs:236-258 | In every well-formed pool with unbroken chains the one-pass expiry cascade keeps them unbroken exactly when a second pass over sender nonces would find nothing more. |
| `Pool.SimpleExpiryClosed` | crates/augecoin-core/src/mempool.rs:236-258 | For single-sender transfers one pass of the cascade is complete. |
| `Reachable.CascadeStops` | crates/augecoin-core/src/mempool.rs:236-258 | Three signed payments are admitted to the empty pool as unbroken chains; when the first expires, the single pass evicts the second, which also held account 2's nonce 0, and leaves that account's nonce 1 pending; or two encodings collide. |
| `PoolRules.ExpiryExact` | crates/augecoin-core/src/mempool.rs:216-279 | Expiry leaves, in order and with their times, exactly the operations whose time to live is not over and that use up no nonce above the smallest one an expired operation uses up for the same account; a time to live of zero switches it off. |
| `Removals.CommittedNonces` | crates/augecoin-core/src/mempool.rs:379-406 | No pending operation shares a sender nonce with a committed one. |
| `Removals.CommittedSenderless` | crates/augecoin-core/src/mempool.rs:383-386 | A committed operation without senders stays pending exactly when an earlier pending one compares equal to it without being it. |
| `Removals.CommittedGone` | crates/augecoin-core/src/mempool.rs:379-406 | Except for address transfers no committed operation stays pending. |
| `Reachable.TwinSurvives` | crates/augecoin-core/src/mempool.rs:383-386 | Two address transfers that differ only in a receiver's public key, paying any sufficient fee, are both admitted to the empty pool; committing the second removes the first and leaves the second; or two encodings collide. |
| `Admission.ConservationExact` | crates/augecoin-core/src/mempool.rs:1006-1018 | A transfer passes the conservation check exactly when the true totals agree and fit 64 bits. |
| `AdmissionRules.ValueExact` | crates/augecoin-core/src/mempool.rs:753-1003 | For each of the sixteen payloads the value and fee check passes exactly when it should: transfers between accounts are balanced with every sender on record, not barred and able to pay amount plus fee and no receiver barred; transfers by address or in data only balanced; a buyer covers price plus fee; a contract caller covers fee plus gas reserve and is not barred; gifts and account creation by the account's state; and the fee reaches the minimum wherever one is due. A sum past 64 bits counts as the last 64-bit value. |
| `AdmissionRules.SignedExact` | crates/augecoin-core/src/mempool.rs:590-685 | For each of the sixteen payloads signatures pass exactly when the keys that must have signed the unsigned bytes accept the signatures in their slots. |
| `AdmissionRules.UsedExact` | crates/augecoin-core/src/mempool.rs:503-567 | For each payload the nonces that are checked are those of its senders and of the account it acts for; gifts, recoveries, account creation and admin operations use up none of their own. |
| `AdmissionRules.DueExact` | crates/augecoin-core/src/mempool.rs:723-751 | The nonce check passes exactly for the nonce due: one above the largest pending one but never behind the chain, and behind the last 64-bit value the chain's. |
| `AdmissionRules.EveryTransferBalanced` | crates/augecoin-core/src/mempool.rs:917-955 | Nothing that moves value, by account, address or inside a data operation, passes unbalanced or under the minimum fee. |
| `Admission.SendersAuthorized` | crates/augecoin-core/src/mempool.rs:601-620 | The sender loop passes exactly when there is a signature slot for every sender and sender i exists and its key accepts signature i. |
| `Admission.PassingNonce` | crates/augecoin-core/src/mempool.rs:723-751 | A nonce that passes is not behind the chain, is above the largest pending one unless that is the last value, and follows it directly unless it is the chain's. |
| `Quorum.ThresholdExact` | crates/augecoin-consensus/src/quorum.rs:5-10 | For n validators the threshold is n minus the tolerated faults, and two thresholds overlap in more than the faults. |
| `Quorum.VerifyQuorum` | crates/augecoin-consensus/src/quorum.rs:12-32 | The nested loop counts, once each, the first active validators whose keys accept some signature, and accepts exactly when they reach the threshold. |
| `Quorum.QuorumsIntersect` | crates/augecoin-consensus/src/quorum.rs:12-32 | If two hashes are accepted under one set, more validator ids than may be faulty each have a verifying signature on both, whatever duplicates or junk the lists contain. |
| `Quorum.QuorumsShareValidators` | crates/augecoin-consensus/src/quorum.rs:12-32 | With distinct ids these are validators: one and the same active key verifies a signature on each hash. |
| `Quorum.QuorumNeedsSigners` | crates/augecoin-consensus/src/quorum.rs:12-32 | When fewer validators than the threshold have a verifying signature nothing is accepted. |
| `Quorum.SeparateKeysCount` | crates/augecoin-consensus/src/quorum.rs:20-29 | When no signature verifies under two active keys, counting the first match counts every signer. |
| `Quorum.NobodyActive` | crates/augecoin-consensus/src/quorum.rs:5-32 | With nobody active every list is accepted, the empty one included. |
| `Validators.RunSound` | crates/augecoin-consensus/src/validator.rs:83-260 | On every run that does not exhaust the id counter, ids stay distinct and below the counter, the ids handed out are consecutive, and every member was there at the start or added since. |
| `Validators.GoneStaysGone` | crates/augecoin-consensus/src/validator.rs:83-260 | An id that was handed out and is gone never comes back. |
| `Validators.AppendSound` | crates/augecoin-consensus/src/validator.rs:106-126 | An addition keeps ids distinct and below the counter exactly when the counter is not at its maximum. |
| `Validators.CounterWraps` | crates/augecoin-consensus/src/validator.rs:111-112 | At its maximum the counter wraps, and in a set that has a member with id 0 the second addition from there repeats id 0. |
| `Validators.StepActive` | crates/augecoin-consensus/src/validator.rs:83-260 | A step leaves somebody active exactly when it does not move the only active validator out, which only an activation with a future height or a direct status change can do. |
| `Validators.RunActive` | crates/augecoin-consensus/src/validator.rs:83-260 | On every run without such a step somebody stays active. |
| `Validators.LeadsOnce` | crates/augecoin-consensus/src/validator.rs:74-81 | Over any window of as many heights as there are active validators each of them leads at exactly one. |
| `Validators.GenesisSound` | crates/augecoin-consensus/src/validator.rs:45-57 | A new set has distinct ids below its counter exactly when the initial ids are distinct and none is the last 64-bit value. |
| `Validators.WithoutExact` | crates/augecoin-consensus/src/validator.rs:154-155 | Removal keeps exactly the other validators and keeps ids distinct. |
| `ValidatorRules.AddTakesEffect` | crates/augecoin-consensus/src/validator.rs:105-126 | An authorized addition appends one member with the given key, the next id and the status its height calls for, and keeps everybody else in place. |
| `ValidatorRules.RemoveTakesEffect` | crates/augecoin-consensus/src/validator.rs:127-149 | An authorized removal is accepted exactly when due, for a member that is not the only active one; then the id is gone and everybody else is kept in order; otherwise the error says why and nothing changes. |
| `ValidatorRules.ActivateTakesEffect` | crates/augecoin-consensus/src/validator.rs:150-168 | An authorized activation is accepted exactly for a member, who becomes active, or pending with that height if it lies ahead; nobody else changes. |
| `ValidatorRules.DeactivateTakesEffect` | crates/augecoin-consensus/src/validator.rs:169-191 | An authorized deactivation is accepted exactly when due, for a member that is not the only active one, who becomes inactive; nobody else changes. |
| `ValidatorRules.Unentitled` | crates/augecoin-consensus/src/validator.rs:88-103 | An operation that is no admin operation, or that no admin signature over its unsigned bytes backs, is refused and changes nothing. |
| `ValidatorRules.RemoveDirectTakesEffect` | crates/augecoin-consensus/src/validator.rs:230-245 | A direct removal refuses the only active member and unknown ids; otherwise the id is gone and everybody else is kept in order. |
| `ValidatorRules.SetStatusTakesEffect` | crates/augecoin-consensus/src/validator.rs:247-259 | A direct status change sets the status of the first member with the id and changes nobody else. |
| `ValidatorRules.PendingTakesEffect` | crates/augecoin-consensus/src/validator.rs:196-204 | After processing nobody is pending whose height has come; exactly those became active and nobody else changed. |
| `ValidatorRules.Rotation` | crates/augecoin-consensus/src/validator.rs:74-81 | Height 0 is led by the first active member, and each next height by the next active one, going round. |
| `ValidatorRules.FirstCounter` | crates/augecoin-consensus/src/validator.rs:45-57 | A new set counts on from one above its largest id, from zero when it is empty. |
| `Validators.ValidatorSet.ApplyValidatorAdmin` | crates/augecoin-consensus/src/validator.rs:83-194 | The admin step on the object gives the roster's next state or its error; on error nothing changes. |
| `Validators.ValidatorSet.ProcessPendingActivations` | crates/augecoin-consensus/src/validator.rs:196-204 | The in-place loop activates exactly the pending validators whose height has come. |
| `Validators.ValidatorSet.RemoveValidatorDirect` | crates/augecoin-consensus/src/validator.rs:230-245 | Direct removal refuses the last active validator and unknown ids, changing nothing then. |
| `Validators.ValidatorSet.SetValidatorStatusDirect` | crates/augecoin-consensus/src/validator.rs:247-259 | A direct status change affects the first validator with the id and nothing else, and nothing when there is none. |
| `Validators.ValidatorSet.Leader` | crates/augecoin-consensus/src/validator.rs:74-81 | The leader is the active validator at the height's remainder, or an error when nobody is active. |
| `Validators.ValidatorSet.constructor` | crates/augecoin-consensus/src/validator.rs:45-57 | The counter the constructor accumulates is the one that makes fresh ids fresh. |

## Left out

- WebAssembly execution, linear memory, import and export checks and fuel metering: the runtime is a foreign crate; running out of fuel is an outcome that may happen at any call.
- Stored code is the list of storage calls one run of it makes; how a program's list depends on the snapshot it is given is not modelled, so in a block a call stands for whatever its program does there.
- Scratch-buffer sizes and address arithmetic of the token program: its reads and writes go to the host directly.
- The native token's creation path: the engine never takes it, and it would add only another codec check and four writes.
- Native and stored-code queries: `Engine.QueryContract` takes their answer as a parameter.
- Contract record, call and event codecs are modelled as functions, not as cursor and buffer steps; the buffers they build are values, so nothing about update in place is captured for them.
- Engine entry points are modelled as functions from the store to an outcome; pushing writes and events onto the outcome one by one is not captured.
- RocksDB, write batches and column families beyond a map from family and key to bytes; storage errors of the contract store.
- Ed25519 and BLAKE3 internals; in the quorum loop the panic on a stored validator key that is no curve point.
- Transaction request and response messages and their compression: the same codec patterns around a foreign library.
- The validator set's own wire format and the read-only accessors: repeats of patterns proved for operations and blocks.
- The mempool's block precheck, logging of evictions and human-readable reasons inside its errors.
- The texts inside decoding errors: the decoders fail for the same inputs, with the kind of error where the code distinguishes kinds.
- Block execution, the SafeBox, the consensus loop, round state, equivocation scan, emission, environment-driven limits.
- Command line, RPC, wallets, desktop and scripts.
