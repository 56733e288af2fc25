/** The contract engine: store, create, execute and query, each returning writes the caller applies only on success. */
module Engine {
  import opened Bytes
  import opened Hashing
  import opened ContractTypes
  import opened ContractStore
  import opened WasmHost
  import opened Auge20
  import opened TokenLedger
  import opened NativeToken

  const GAS_STORE: u64 := 50_000
  const MAX_WASM_FUEL: u64 := 0x7FFF_FFFF_FFFF_FFFF

  datatype Limits = Limits(maxCodeSize: u32, maxStorage: u64)

  /** How the metered runtime ended: out of fuel at some point, or finished after `units`. */
  datatype Fuel = Exhausted | Spent(units: u64)

  /** A run of stored code: its storage calls in order, its raw events, and whether it trapped. Any program is some such run. */
  datatype Guest = Guest(calls: seq<HostCall>, events: seq<Bytes>, traps: bool)

  /** The base cost plus the fuel handed out never exceeds the gas limit, and all of the rest is handed out up to the ceiling. */
  function AllocateFuel(gasLimit: u64, base: u64): (r: Result<u64, ContractError>)
    ensures r.Success? <==> base <= gasLimit
    ensures r.Success? ==> base + r.value <= gasLimit && r.value <= 0x7FFF_FFFF_FFFF_FFFF
    ensures r.Success? ==> base + r.value == gasLimit || r.value == 0x7FFF_FFFF_FFFF_FFFF
  {
    if gasLimit < base then Failure(OutOfGas)
    else Success(if gasLimit - base < MAX_WASM_FUEL then gasLimit - base else MAX_WASM_FUEL)
  }

  function Finished<T>(fuel: Fuel, o: Outcome<T>): Result<(T, u64), ContractError> {
    match fuel
    case Exhausted => Failure(OutOfGas)
    case Spent(n) =>
      match o
      case Done(v) => Success((v, n))
      case Fail(c) => Failure(MapError(c))
      case Trap => Failure(ExecutionFailed)
  }

  function CodeHashOf(H: Digest, wasm: Bytes): Id { H(wasm)[..HASH_LEN] }

  function ContractIdOf(H: Digest, owner: u64, codeId: u64, init: Bytes): Id {
    H(U64(owner) + (U64(codeId) + Bytes32(init)))[..HASH_LEN]
  }

  /** Only events that decode are surfaced. */
  function Surface(raw: seq<Bytes>): seq<ContractEvent> {
    if raw == [] then []
    else
      var front := Surface(raw[..|raw| - 1]);
      match DecodeEvent(raw[|raw| - 1])
      case Success(e) => front + [e]
      case Failure(_) => front
  }

  function NewMeta(id: Id, owner: u64, codeId: u64, height: u64): ContractMeta {
    ContractMeta(id, owner, codeId, false, 0, height)
  }

  function MetaWrite(m: ContractMeta): WriteOp { WriteOp(KeyContract(m.contractId), Some(EncodeMeta(m))) }

  // ---- Storing code ----

  function NextCodeId(store: Store): u64 {
    match Lookup(store, NEXT_CODE_ID)
    case Some(v) => if |v| == 8 then FromU64(v) else 2
    case None => 2
  }

  /** `valid` is the module validator's verdict. The counter wraps after its last id. */
  function StoreCode(H: Digest, lim: Limits, store: Store, wasm: Bytes, valid: bool, gasLimit: u64)
    : Result<(u64, ApplyOutcome), ContractError>
  {
    if gasLimit < GAS_STORE then Failure(OutOfGas)
    else if |wasm| > lim.maxCodeSize then Failure(WasmTooLarge)
    else if !valid then Failure(InvalidWasm)
    else
      var hash := CodeHashOf(H, wasm);
      var known := Lookup(store, KeyCodeHash(hash));
      if known.Some? && |known.value| == 8 then Success((FromU64(known.value), ApplyOutcome(GAS_STORE, [], [])))
      else
        var id := NextCodeId(store);
        var writes := [
          WriteOp(KeyCode(id), Some(EncodeCode(CodeRecord(id, hash, wasm)))),
          WriteOp(KeyCodeHash(hash), Some(U64(id))),
          WriteOp(NEXT_CODE_ID, Some(U64((id + 1) % U64_END)))];
        Success((id, ApplyOutcome(GAS_STORE, [CodeStored(id, hash)], writes)))
  }

  predicate HasCode(store: Store, codeId: u64) {
    KeyCode(codeId) in store && DecodeCode(store[KeyCode(codeId)]).Success?
  }

  // ---- Creating contracts ----

  function CheckInit(data: Bytes): Result<TokenInit, ContractError> {
    var t := DecodeInit(data);
    if t.Failure? then Failure(InvalidData)
    else if t.value.name == [] || t.value.symbol == [] then Failure(InvalidAmount)
    else if t.value.decimals > 18 then Failure(InvalidAmount)
    else if t.value.initialSupply > t.value.maxSupply then Failure(MaxSupplyExceeded)
    else Success(t.value)
  }

  ghost function CreateToken(H: Digest, store: Store, sender: u64, data: Bytes, height: u64, gasLimit: u64, fuel: Fuel)
    : Result<(Id, ApplyOutcome), ContractError>
  {
    if gasLimit < GAS_CREATE then Failure(OutOfGas) else
    var t :- CheckInit(data);
    var id := ContractIdOf(H, sender, AUGE20_CODE_ID, data);
    if KeyContract(id) in store then Failure(DuplicateContract) else
    var allotted :- AllocateFuel(gasLimit, GAS_CREATE);
    var (h, spent) :- Finished(fuel, Instantiate(NewHost(store, sender, height, id), data));
    var ws :- Harvest([], h.exceeded, SomeLog(h));
    var meta := NewMeta(id, sender, AUGE20_CODE_ID, height);
    Success((id, ApplyOutcome(GAS_CREATE + spent, [ContractCreated(id, sender, AUGE20_CODE_ID)], ws + [MetaWrite(meta)])))
  }

  ghost function CreateStored(H: Digest, store: Store, sender: u64, codeId: u64, data: Bytes, height: u64, gasLimit: u64, g: Guest, fuel: Fuel)
    : Result<(Id, ApplyOutcome), ContractError>
  {
    if KeyCode(codeId) !in store then Failure(CodeNotFound)
    else if DecodeCode(store[KeyCode(codeId)]).Failure? then Failure(InvalidData)
    else
      var id := ContractIdOf(H, sender, codeId, data);
      if KeyContract(id) in store then Failure(DuplicateContract) else
      var allotted :- AllocateFuel(gasLimit, GAS_CREATE);
      var (h, spent) :- Finished(fuel, if g.traps then Trap else Done(NewHost(store, sender, height, id).Run(g.calls)));
      var ws :- Harvest([MetaWrite(NewMeta(id, sender, codeId, height))], h.exceeded, SomeLog(h));
      Success((id, ApplyOutcome(GAS_CREATE + spent, Surface(g.events) + [ContractCreated(id, sender, codeId)], ws)))
  }

  ghost function CreateContract(H: Digest, store: Store, sender: u64, codeId: u64, data: Bytes, height: u64, gasLimit: u64, g: Guest, fuel: Fuel)
    : Result<(Id, ApplyOutcome), ContractError>
  {
    if codeId == AUGE20_CODE_ID then CreateToken(H, store, sender, data, height, gasLimit, fuel)
    else CreateStored(H, store, sender, codeId, data, height, gasLimit, g, fuel)
  }

  // ---- Executing contracts ----

  ghost function ExecuteToken(store: Store, sender: u64, id: Id, data: Bytes, height: u64, gasLimit: u64, fuel: Fuel)
    : Result<ApplyOutcome, ContractError>
  {
    var call := DecodeCall(data);
    if call.Failure? then Failure(InvalidData) else
    var base := BaseGas(call.value);
    var allotted :- AllocateFuel(gasLimit, base);
    var ((h, e), spent) :- Finished(fuel, Auge20.Execute(NewHost(store, sender, height, id), data));
    var ws :- Harvest([], h.exceeded, SomeLog(h));
    Success(ApplyOutcome(base + spent, Surface([EncodeEvent(e)]), ws))
  }

  ghost function ExecuteStored(store: Store, sender: u64, meta: ContractMeta, id: Id, height: u64, gasLimit: u64, g: Guest, fuel: Fuel)
    : Result<ApplyOutcome, ContractError>
  {
    if KeyCode(meta.codeId) !in store then Failure(CodeNotFound)
    else if DecodeCode(store[KeyCode(meta.codeId)]).Failure? then Failure(InvalidData)
    else
      var allotted :- AllocateFuel(gasLimit, GAS_TRANSFER);
      var (h, spent) :- Finished(fuel, if g.traps then Trap else Done(NewHost(store, sender, height, id).Run(g.calls)));
      var ws :- Harvest([], h.exceeded, SomeLog(h));
      Success(ApplyOutcome(GAS_TRANSFER + spent, Surface(g.events), ws))
  }

  ghost function ExecuteContract(lim: Limits, store: Store, sender: u64, id: Id, data: Bytes, height: u64, gasLimit: u64, g: Guest, fuel: Fuel)
    : Result<ApplyOutcome, ContractError>
  {
    if KeyContract(id) !in store then Failure(ContractNotFound) else
    var meta := DecodeMeta(store[KeyContract(id)]);
    if meta.Failure? then Failure(InvalidData)
    else if meta.value.codeId == AUGE20_CODE_ID then ExecuteToken(store, sender, meta.value.contractId, data, height, gasLimit, fuel)
    else if meta.value.isAuge20 then ExecuteNative(store, sender, meta.value, data, gasLimit, lim.maxStorage)
    else ExecuteStored(store, sender, meta.value, id, height, gasLimit, g, fuel)
  }

  // ---- Queries ----

  /** The bytes a token query returns, or the error its report stands for; queries are metered too. */
  function QueryToken(store: Store, id: Id, data: Bytes, fuel: Fuel): Result<Bytes, ContractError> {
    var (q, _) :- Finished(fuel, Auge20.Query(NewHost(store, 0, 0, id), data));
    Success(EncodeResult(q))
  }

  /** `other` is what the native or stored-code path answers for a contract that is not a token. */
  function QueryContract(store: Store, id: Id, data: Bytes, fuel: Fuel, other: Result<Bytes, ContractError>): Result<Bytes, ContractError> {
    if KeyContract(id) !in store then Failure(ContractNotFound) else
    var meta := DecodeMeta(store[KeyContract(id)]);
    if meta.Failure? then Failure(InvalidData)
    else if meta.value.codeId == AUGE20_CODE_ID then QueryToken(store, id, data, fuel)
    else other
  }

  lemma SurfaceOne(e: ContractEvent)
    ensures Surface([EncodeEvent(e)]) == [e]
  {
    EventRoundTrip(e);
    assert [EncodeEvent(e)][..0] == [];
    assert Surface([]) == [];
  }

  /** No accepted token call reports more gas than its limit. */
  lemma GasWithinLimit(store: Store, sender: u64, id: Id, data: Bytes, height: u64, gasLimit: u64, units: u64)
    requires DecodeCall(data).Success?
    requires AllocateFuel(gasLimit, BaseGas(DecodeCall(data).value)).Success?
    requires units <= AllocateFuel(gasLimit, BaseGas(DecodeCall(data).value)).value
    ensures var r := ExecuteToken(store, sender, id, data, height, gasLimit, Spent(units));
            r.Success? ==> BaseGas(DecodeCall(data).value) <= r.value.gasUsed <= gasLimit
  {
  }
}
