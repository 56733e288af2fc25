/** What the engine answers to calls it does not carry out, first reason first. */
module Refusals {
  import opened Bytes
  import opened Hashing
  import opened ContractTypes
  import opened ContractStore
  import opened WasmHost
  import opened Auge20
  import opened TokenLedger
  import opened NativeToken
  import opened Engine

  /** An upload is refused for its gas, then its size, then the validator's verdict. */
  lemma UploadRefused(H: Digest, lim: Limits, store: Store, wasm: Bytes, valid: bool, gas: u64)
    ensures var r := StoreCode(H, lim, store, wasm, valid, gas);
            && (gas < 50_000 ==> r == Failure(OutOfGas))
            && (gas >= 50_000 && |wasm| > lim.maxCodeSize ==> r == Failure(WasmTooLarge))
            && (gas >= 50_000 && |wasm| <= lim.maxCodeSize && !valid ==> r == Failure(InvalidWasm))
  {
    hide CodeHashOf, KeyCode, KeyCodeHash, EncodeCode;
  }

  /** A token is refused for its gas, then its parameters, then a contract already there, then fuel and over-long texts. */
  lemma TokenRefused(H: Digest, store: Store, sender: u64, data: Bytes, height: u64, gas: u64, fuel: Fuel)
    ensures var r := CreateToken(H, store, sender, data, height, gas, fuel);
            var t := DecodeInit(data);
            && (gas < 10_000 ==> r == Failure(OutOfGas))
            && (gas >= 10_000 && t.Failure? ==> r == Failure(InvalidData))
            && (gas >= 10_000 && t.Success? ==>
                  var i := t.value;
                  && (i.name == [] || i.symbol == [] || i.decimals > 18 ==> r == Failure(InvalidAmount))
                  && (i.name != [] && i.symbol != [] && i.decimals <= 18 && i.initialSupply > i.maxSupply ==> r == Failure(MaxSupplyExceeded))
                  && (i.name != [] && i.symbol != [] && i.decimals <= 18 && i.initialSupply <= i.maxSupply ==>
                        var known := KeyContract(ContractIdOf(H, sender, AUGE20_CODE_ID, data)) in store;
                        && (known ==> r == Failure(DuplicateContract))
                        && (!known && fuel.Exhausted? ==> r == Failure(OutOfGas))
                        && (!known && fuel.Spent? && (|i.name| > 64 || |i.symbol| > 64) ==> r == Failure(InvalidData))))
  {
    hide DecodeInit, ParseGuestInit, ContractIdOf, KeyContract, NewHost, Harvest, EncodeMeta;
    if DecodeInit(data).Success? {
      GuestInit(data, DecodeInit(data).value);
    }
  }

  /** Nobody answers for a contract that is not on record. */
  lemma UnknownContract(lim: Limits, store: Store, sender: u64, id: Id, data: Bytes, height: u64, gas: u64, g: Guest, fuel: Fuel,
                        other: Result<Bytes, ContractError>)
    requires KeyContract(id) !in store
    ensures ExecuteContract(lim, store, sender, id, data, height, gas, g, fuel) == Failure(ContractNotFound)
    ensures QueryContract(store, id, data, fuel, other) == Failure(ContractNotFound)
  {
    hide KeyContract;
  }

  /** A call the token cannot decode is refused before anything is run or charged, by either implementation. */
  lemma Undecoded(store: Store, sender: u64, meta: ContractMeta, data: Bytes, height: u64, gas: u64, max: u64, fuel: Fuel)
    requires DecodeCall(data).Failure?
    ensures ExecuteToken(store, sender, meta.contractId, data, height, gas, fuel) == Failure(InvalidData)
    ensures ExecuteNative(store, sender, meta, data, gas, max) == Failure(InvalidData)
  {
    hide DecodeCall;
  }

  /** A native call below its base cost, 7500 for a mint and 5000 otherwise, is refused. */
  lemma NativeOutOfGas(store: Store, sender: u64, meta: ContractMeta, data: Bytes, gas: u64, max: u64)
    requires DecodeCall(data).Success? && gas < if DecodeCall(data).value.Mint? then 7_500 else 5_000
    ensures ExecuteNative(store, sender, meta, data, gas, max) == Failure(OutOfGas)
  {
    hide DecodeCall;
  }
}
