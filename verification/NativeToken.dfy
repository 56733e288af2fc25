/** The native AUGE20 implementation, kept beside the WASM one for equivalence. */
module NativeToken {
  import opened Bytes
  import opened ContractTypes
  import opened ContractStore
  import opened MapSum
  import opened WasmHost
  import opened Auge20
  import opened TokenLedger

  const GAS_CREATE: u64 := 10_000
  const GAS_TRANSFER: u64 := 5_000
  const GAS_MINT: u64 := 7_500
  const GAS_BURN: u64 := 5_000

  function BaseGas(c: TokenCall): u64 {
    match c
    case Transfer(_, _) => GAS_TRANSFER
    case Mint(_, _) => GAS_MINT
    case Burn(_) => GAS_BURN
  }

  datatype ApplyOutcome = ApplyOutcome(gasUsed: nat, events: seq<ContractEvent>, writes: seq<WriteOp>)

  /** Writes collected so far and the storage counter that travels with them. */
  datatype Draft = Draft(writes: seq<WriteOp>, used: u64)

  /** Unlike the WASM token, a cell that is not eight bytes wide is an error. */
  function ReadNative(store: Store, key: Bytes): Result<u64, ContractError> {
    match Lookup(store, key)
    case None => Success(0)
    case Some(v) => if |v| != 8 then Failure(InvalidData) else Success(FromU64(v))
  }

  /** The old length comes from the store, not from writes already in the draft. */
  function PutState(store: Store, max: u64, d: Draft, key: Bytes, value: Bytes): Result<Draft, ContractError> {
    var was := match Lookup(store, key) case Some(v) => |v| case None => 0;
    var projected := d.used + |value| - was;
    if projected < 0 || projected > max then Failure(StorageLimitExceeded)
    else Success(Draft(d.writes + [WriteOp(key, Some(value))], projected))
  }

  function PutTwo(store: Store, max: u64, used: u64, k1: Bytes, v1: u64, k2: Bytes, v2: u64): Result<Draft, ContractError> {
    var d :- PutState(store, max, Draft([], used), k1, U64(v1));
    PutState(store, max, d, k2, U64(v2))
  }

  function Settle(meta: ContractMeta, gas: nat, d: Draft, e: ContractEvent): (r: Result<ApplyOutcome, ContractError>)
    ensures r.Success?
  {
    var record := WriteOp(KeyContract(meta.contractId), Some(EncodeMeta(meta.(storageUsed := d.used))));
    Success(ApplyOutcome(gas, [e], d.writes + [record]))
  }

  function ExecuteNative(store: Store, sender: u64, meta: ContractMeta, data: Bytes, gasLimit: u64, max: u64)
    : Result<ApplyOutcome, ContractError>
  {
    var call := DecodeCall(data);
    if call.Failure? then Failure(InvalidData)
    else if gasLimit < BaseGas(call.value) then Failure(OutOfGas)
    else
      var raw := Lookup(store, KeyToken(meta.contractId));
      if raw.None? then Failure(ContractNotFound) else
      var token := DecodeConfig(raw.value);
      if token.Failure? then Failure(InvalidData) else
      var supply :- ReadNative(store, KeySupply(meta.contractId));
      match call.value
      case Transfer(to, amount) => TransferNative(store, sender, meta, to, amount, max)
      case Mint(to, amount) => MintNative(store, sender, meta, token.value, supply, to, amount, max)
      case Burn(amount) => BurnNative(store, sender, meta, token.value, supply, amount, max)
  }

  /** Both balances are read before either is written. */
  function TransferNative(store: Store, sender: u64, meta: ContractMeta, to: u64, amount: u64, max: u64)
    : Result<ApplyOutcome, ContractError>
  {
    if amount == 0 then Failure(InvalidAmount) else
    var fromKey, toKey := KeyBalance(meta.contractId, sender), KeyBalance(meta.contractId, to);
    var fromBal :- ReadNative(store, fromKey);
    var toBal :- ReadNative(store, toKey);
    if fromBal < amount then Failure(InsufficientBalance)
    else if toBal + amount >= U64_END then Failure(ArithmeticOverflow)
    else
      var d :- PutTwo(store, max, meta.storageUsed, fromKey, fromBal - amount, toKey, toBal + amount);
      Settle(meta, GAS_TRANSFER, d, TokenTransferred(meta.contractId, sender, to, amount))
  }

  function MintNative(store: Store, sender: u64, meta: ContractMeta, token: TokenConfig, supply: u64, to: u64, amount: u64, max: u64)
    : Result<ApplyOutcome, ContractError>
  {
    if sender != meta.owner then Failure(Unauthorized)
    else if !token.mintEnabled then Failure(MintDisabled)
    else if amount == 0 then Failure(InvalidAmount)
    else if supply + amount >= U64_END then Failure(ArithmeticOverflow)
    else if supply + amount > token.maxSupply then Failure(MaxSupplyExceeded)
    else
      var toKey := KeyBalance(meta.contractId, to);
      var toBal :- ReadNative(store, toKey);
      if toBal + amount >= U64_END then Failure(ArithmeticOverflow) else
      var d :- PutTwo(store, max, meta.storageUsed, KeySupply(meta.contractId), supply + amount, toKey, toBal + amount);
      Settle(meta, GAS_MINT, d, TokenMinted(meta.contractId, to, amount))
  }

  function BurnNative(store: Store, sender: u64, meta: ContractMeta, token: TokenConfig, supply: u64, amount: u64, max: u64)
    : Result<ApplyOutcome, ContractError>
  {
    if !token.burnEnabled then Failure(BurnDisabled)
    else if amount == 0 then Failure(InvalidAmount)
    else
      var balKey := KeyBalance(meta.contractId, sender);
      var bal :- ReadNative(store, balKey);
      if bal < amount then Failure(InsufficientBalance)
      else if supply < amount then Failure(ArithmeticOverflow)
      else
        var d :- PutTwo(store, max, meta.storageUsed, KeySupply(meta.contractId), supply - amount, balKey, bal - amount);
        Settle(meta, GAS_BURN, d, TokenBurned(meta.contractId, sender, amount))
  }

  // ---- The records that hold a ledger ----

  function NativeConfig(c: TokenState): TokenConfig {
    TokenConfig(c.name, c.symbol, c.decimals, c.maxSupply, c.mintEnabled, c.burnEnabled)
  }

  ghost predicate NativeRep(store: Store, meta: ContractMeta, l: Ledger) {
    var id := meta.contractId;
    && meta.owner == l.config.owner
    && Lookup(store, KeyToken(id)) == Some(EncodeConfig(NativeConfig(l.config)))
    && l.supply < U64_END && Lookup(store, KeySupply(id)) == Some(U64(l.supply))
    && (forall a: u64 :: BalanceRecord(store, id, a, l.balances))
  }

  ghost predicate BalanceRecord(store: Store, id: Id, a: u64, b: map<u64, nat>) {
    && (a in b ==> b[a] < U64_END && Lookup(store, KeyBalance(id, a)) == Some(U64(b[a])))
    && (a !in b ==> KeyBalance(id, a) !in store)
  }

  lemma RecordsApart(id: Id, a: u64, b: u64)
    ensures KeyToken(id) != KeySupply(id) && KeyToken(id) != KeyBalance(id, a) && KeySupply(id) != KeyBalance(id, a)
    ensures KeyContract(id) != KeyToken(id) && KeyContract(id) != KeySupply(id) && KeyContract(id) != KeyBalance(id, a)
    ensures KeyBalance(id, a) == KeyBalance(id, b) ==> a == b
  {
    assert KeyToken(id)[0] == 116 && KeySupply(id)[0] == 115 && KeyBalance(id, a)[0] == 98 && KeyContract(id)[0] == 99;
    if KeyBalance(id, a) == KeyBalance(id, b) {
      assert KeyBalance(id, a)[35..] == U64(a) && KeyBalance(id, b)[35..] == U64(b);
      U64Injective(a, b);
    }
  }

  lemma ReadRecord(store: Store, meta: ContractMeta, l: Ledger, a: u64)
    requires NativeRep(store, meta, l)
    ensures ReadNative(store, KeyBalance(meta.contractId, a)) == Success(l.Balance(a))
    ensures ReadNative(store, KeySupply(meta.contractId)) == Success(l.supply)
    ensures l.Balance(a) < U64_END
    ensures (match Lookup(store, KeyBalance(meta.contractId, a)) case Some(v) => |v| case None => 0)
            == if a in l.balances then 8 else 0
  {
    assert BalanceRecord(store, meta.contractId, a, l.balances);
    U64RoundTrip(l.supply);
    if a in l.balances {
      U64RoundTrip(l.balances[a]);
    }
  }

  lemma PutBalance(store: Store, meta: ContractMeta, l: Ledger, a: u64, v: u64)
    requires NativeRep(store, meta, l)
    ensures NativeRep(store[KeyBalance(meta.contractId, a) := U64(v)], meta, l.(balances := l.balances[a := v]))
  {
    var id, m := meta.contractId, l.balances[a := v];
    var s := store[KeyBalance(id, a) := U64(v)];
    RecordsApart(id, a, a);
    forall b: u64
      ensures BalanceRecord(s, id, b, m)
    {
      RecordsApart(id, a, b);
      assert BalanceRecord(store, id, b, l.balances);
    }
  }

  lemma PutSupply(store: Store, meta: ContractMeta, l: Ledger, v: u64)
    requires NativeRep(store, meta, l)
    ensures NativeRep(store[KeySupply(meta.contractId) := U64(v)], meta, l.(supply := v))
  {
    var s := store[KeySupply(meta.contractId) := U64(v)];
    RecordsApart(meta.contractId, 0, 0);
    forall b: u64
      ensures BalanceRecord(s, meta.contractId, b, l.balances)
    {
      RecordsApart(meta.contractId, b, b);
      assert BalanceRecord(store, meta.contractId, b, l.balances);
    }
  }

  lemma PutMeta(store: Store, meta: ContractMeta, l: Ledger, v: Bytes)
    requires NativeRep(store, meta, l)
    ensures NativeRep(store[KeyContract(meta.contractId) := v], meta, l)
  {
    var s := store[KeyContract(meta.contractId) := v];
    RecordsApart(meta.contractId, 0, 0);
    forall b: u64
      ensures BalanceRecord(s, meta.contractId, b, l.balances)
    {
      RecordsApart(meta.contractId, b, b);
      assert BalanceRecord(store, meta.contractId, b, l.balances);
    }
  }

  lemma ApplyThree(m: Store, a: WriteOp, b: WriteOp, c: WriteOp)
    ensures Apply(m, [] + [a] + [b] + [c]) == ApplyOne(ApplyOne(ApplyOne(m, a), b), c)
  {
    var ws := [a] + [b] + [c];
    assert [] + [a] + [b] + [c] == ws;
    assert ws[..2] == [a] + [b] && ws[..2][..1] == [a] && [a][..0] == [];
    assert Apply(m, [a]) == ApplyOne(m, a);
    assert Apply(m, [a] + [b]) == ApplyOne(Apply(m, [a]), b);
  }

  // ---- Agreement ----

  /** The account whose balance cell a call may create. */
  function Target(sender: u64, c: TokenCall): u64 {
    match c
    case Transfer(to, _) => to
    case Mint(to, _) => to
    case Burn(_) => sender
  }

  /** The native storage counter has room for the one cell the call may add. */
  predicate UnderCap(l: Ledger, sender: u64, meta: ContractMeta, c: TokenCall, max: u64) {
    meta.storageUsed + (if Target(sender, c) in l.balances then 0 else 8) <= max
  }

  predicate SelfTransfer(sender: u64, c: TokenCall) { c.Transfer? && c.to == sender }

  /** The bytes a call adds to the token's records: one more balance cell, or none. */
  function Growth(l: Ledger, sender: u64, c: TokenCall): nat {
    if (c.Burn? && sender in l.balances) || (!c.Burn? && c.to in l.balances) then 0 else 8
  }

  /** `r` is the accepted outcome that turns the records of one ledger into those of `after` and counts the bytes it adds. */
  ghost predicate Yields(store: Store, meta: ContractMeta, r: Result<ApplyOutcome, ContractError>, after: Ledger, e: ContractEvent, grown: nat) {
    && r.Success? && r.value.events == [e] && NativeRep(Apply(store, r.value.writes), meta, after)
    && meta.storageUsed + grown < U64_END
    && Lookup(Apply(store, r.value.writes), KeyContract(meta.contractId))
       == Some(EncodeMeta(meta.(storageUsed := meta.storageUsed + grown)))
    && r.value.gasUsed == if e.TokenMinted? then 7_500 else 5_000
  }

  /** Two amounts and the metadata record, written in that order. */
  lemma Settled(store: Store, meta: ContractMeta, max: u64, k1: Bytes, v1: u64, k2: Bytes, v2: u64, gas: nat, e: ContractEvent, after: Ledger)
    requires PutTwo(store, max, meta.storageUsed, k1, v1, k2, v2).Success?
    requires NativeRep(store[k1 := U64(v1)][k2 := U64(v2)], meta, after)
    requires gas == if e.TokenMinted? then 7_500 else 5_000
    requires PutTwo(store, max, meta.storageUsed, k1, v1, k2, v2).value.used >= meta.storageUsed
    ensures Yields(store, meta, Settle(meta, gas, PutTwo(store, max, meta.storageUsed, k1, v1, k2, v2).value, e), after, e,
                   PutTwo(store, max, meta.storageUsed, k1, v1, k2, v2).value.used - meta.storageUsed)
  {
    hide KeyContract, NativeRep, EncodeMeta, U64;
    var d := meta.(storageUsed := PutTwo(store, max, meta.storageUsed, k1, v1, k2, v2).value.used);
    PutMeta(store[k1 := U64(v1)][k2 := U64(v2)], meta, after, EncodeMeta(d));
    ApplyThree(store, WriteOp(k1, Some(U64(v1))), WriteOp(k2, Some(U64(v2))),
               WriteOp(KeyContract(meta.contractId), Some(EncodeMeta(d))));
  }

  lemma TransferAgrees(store: Store, meta: ContractMeta, l: Ledger, sender: u64, to: u64, amount: u64, max: u64)
    requires NativeRep(store, meta, l) && l.Good() && to != sender
    ensures var r, s := TransferNative(store, sender, meta, to, amount, max), Step(l, meta.contractId, sender, Transfer(to, amount));
            && (r.Success? <==> s.Success? && UnderCap(l, sender, meta, Transfer(to, amount), max))
            && (r.Success? ==> Yields(store, meta, r, s.value.0, s.value.1, Growth(l, sender, Transfer(to, amount))))
  {
    hide KeyBalance, NativeRep, ReadNative, Settle, Yields, U64, Utf8;
    var id := meta.contractId;
    ReadRecord(store, meta, l, sender);
    ReadRecord(store, meta, l, to);
    if amount != 0 && l.Balance(sender) >= amount {
      var after := Step(l, id, sender, Transfer(to, amount)).value.0;
      StepGood(l, id, sender, Transfer(to, amount));
      BalanceFits(after, to);
      if TransferNative(store, sender, meta, to, amount, max).Success? {
        var v, w := l.Balance(sender) - amount, l.Balance(to) + amount;
        PutBalance(store, meta, l, sender, v);
        PutBalance(store[KeyBalance(id, sender) := U64(v)], meta, l.(balances := l.balances[sender := v]), to, w);
        Settled(store, meta, max, KeyBalance(id, sender), v, KeyBalance(id, to), w, GAS_TRANSFER,
                TokenTransferred(id, sender, to, amount), after);
      }
    }
  }

  /**
    A native self-transfer credits without the debit: the balance, and with it the sum of all
    balances, ends up larger by exactly the amount, where the WASM token leaves both unchanged.
   */
  lemma SelfTransferInflates(store: Store, meta: ContractMeta, l: Ledger, sender: u64, amount: u64, max: u64)
    requires NativeRep(store, meta, l) && l.Good() && 0 < amount <= l.Balance(sender)
    ensures Step(l, meta.contractId, sender, Transfer(sender, amount)).Success?
    ensures Step(l, meta.contractId, sender, Transfer(sender, amount)).value.0 == l
    ensures var r := TransferNative(store, sender, meta, sender, amount, max);
            var inflated := l.(balances := l.balances[sender := l.Balance(sender) + amount]);
            && (r.Success? <==> l.Balance(sender) + amount < U64_END && meta.storageUsed <= max)
            && (r.Success? ==> Yields(store, meta, r, inflated, TokenTransferred(meta.contractId, sender, sender, amount), 0))
            && Sum(inflated.balances) == inflated.supply + amount
  {
    hide KeyBalance, NativeRep, ReadNative, Settle, Yields, U64, Utf8;
    var id, v, w := meta.contractId, l.Balance(sender) - amount, l.Balance(sender) + amount;
    ReadRecord(store, meta, l, sender);
    SumUpdate(l.balances, sender, w);
    assert l.balances[sender := v][sender := l.Balance(sender)] == l.balances;
    if w < U64_END && meta.storageUsed <= max {
      PutBalance(store, meta, l, sender, v);
      PutBalance(store[KeyBalance(id, sender) := U64(v)], meta, l.(balances := l.balances[sender := v]), sender, w);
      assert l.balances[sender := v][sender := w] == l.balances[sender := w];
      Settled(store, meta, max, KeyBalance(id, sender), v, KeyBalance(id, sender), w, GAS_TRANSFER,
              TokenTransferred(id, sender, sender, amount), l.(balances := l.balances[sender := w]));
    }
  }

  lemma MintAgrees(store: Store, meta: ContractMeta, l: Ledger, sender: u64, to: u64, amount: u64, max: u64)
    requires NativeRep(store, meta, l) && l.Good()
    ensures var r := MintNative(store, sender, meta, NativeConfig(l.config), l.supply, to, amount, max);
            var s := Step(l, meta.contractId, sender, Mint(to, amount));
            && (r.Success? <==> s.Success? && UnderCap(l, sender, meta, Mint(to, amount), max))
            && (r.Success? ==> Yields(store, meta, r, s.value.0, s.value.1, Growth(l, sender, Mint(to, amount))))
  {
    hide KeyBalance, KeySupply, ReadNative, Settle, Yields, U64, Utf8;
    var id := meta.contractId;
    ReadRecord(store, meta, l, to);
    if Step(l, id, sender, Mint(to, amount)).Success? {
      var after := Step(l, id, sender, Mint(to, amount)).value.0;
      StepGood(l, id, sender, Mint(to, amount));
      BalanceFits(after, to);
      if MintNative(store, sender, meta, NativeConfig(l.config), l.supply, to, amount, max).Success? {
        var v, w := l.supply + amount, l.Balance(to) + amount;
        PutSupply(store, meta, l, v);
        PutBalance(store[KeySupply(id) := U64(v)], meta, l.(supply := v), to, w);
        Settled(store, meta, max, KeySupply(id), v, KeyBalance(id, to), w, GAS_MINT, TokenMinted(id, to, amount), after);
      }
    }
  }

  lemma BurnAgrees(store: Store, meta: ContractMeta, l: Ledger, sender: u64, amount: u64, max: u64)
    requires NativeRep(store, meta, l) && l.Good()
    ensures var r := BurnNative(store, sender, meta, NativeConfig(l.config), l.supply, amount, max);
            var s := Step(l, meta.contractId, sender, Burn(amount));
            && (r.Success? <==> s.Success? && UnderCap(l, sender, meta, Burn(amount), max))
            && (r.Success? ==> Yields(store, meta, r, s.value.0, s.value.1, Growth(l, sender, Burn(amount))))
  {
    hide KeyBalance, KeySupply, ReadNative, Settle, Yields, U64, Utf8;
    var id := meta.contractId;
    ReadRecord(store, meta, l, sender);
    BalanceFits(l, sender);
    if Step(l, id, sender, Burn(amount)).Success? {
      var after := Step(l, id, sender, Burn(amount)).value.0;
      if BurnNative(store, sender, meta, NativeConfig(l.config), l.supply, amount, max).Success? {
        var v, w := l.supply - amount, l.Balance(sender) - amount;
        PutSupply(store, meta, l, v);
        PutBalance(store[KeySupply(id) := U64(v)], meta, l.(supply := v), sender, w);
        Settled(store, meta, max, KeySupply(id), v, KeyBalance(id, sender), w, GAS_BURN, TokenBurned(id, sender, amount), after);
      }
    }
  }

  /** A transfer to oneself that the ledger accepts. */
  predicate AffordableSelfTransfer(l: Ledger, sender: u64, c: TokenCall) {
    SelfTransfer(sender, c) && 0 < c.amount <= l.Balance(sender)
  }

  /** What the native token makes of a call: the ledger's step, except that a transfer to oneself only credits. */
  function NativeStep(l: Ledger, id: Id, sender: u64, c: TokenCall): Result<(Ledger, ContractEvent), ContractError> {
    if !AffordableSelfTransfer(l, sender, c) then Step(l, id, sender, c)
    else if l.Balance(sender) + c.amount >= U64_END then Failure(ArithmeticOverflow)
    else Success((l.(balances := l.balances[sender := l.Balance(sender) + c.amount]), TokenTransferred(id, sender, sender, c.amount)))
  }

  lemma SelfTransferNative(store: Store, meta: ContractMeta, l: Ledger, sender: u64, amount: u64, max: u64)
    requires NativeRep(store, meta, l) && l.Good()
    ensures var c := Transfer(sender, amount);
            var r, s := TransferNative(store, sender, meta, sender, amount, max), NativeStep(l, meta.contractId, sender, c);
            && (r.Success? <==> s.Success? && UnderCap(l, sender, meta, c, max))
            && (r.Success? ==> Yields(store, meta, r, s.value.0, s.value.1, Growth(l, sender, c)))
  {
    hide KeyBalance, NativeRep, ReadNative, Settle, Yields, Utf8, PutTwo, Sum;
    if 0 < amount <= l.Balance(sender) {
      SelfTransferInflates(store, meta, l, sender, amount, max);
    } else {
      ReadRecord(store, meta, l, sender);
    }
  }

  /** From any ledger it holds, the native token accepts exactly the calls its own step accepts and the cap allows. */
  lemma NativeImplements(store: Store, meta: ContractMeta, l: Ledger, sender: u64, data: Bytes, c: TokenCall, gas: u64, max: u64)
    requires NativeRep(store, meta, l) && l.Good()
    requires DecodeCall(data) == Success(c) && gas >= BaseGas(c)
    ensures var r, s := ExecuteNative(store, sender, meta, data, gas, max), NativeStep(l, meta.contractId, sender, c);
            && (r.Success? <==> s.Success? && UnderCap(l, sender, meta, c, max))
            && (r.Success? ==> Yields(store, meta, r, s.value.0, s.value.1, Growth(l, sender, c)))
  {
    hide KeyBalance, KeySupply, KeyToken, ReadNative, Yields, EncodeConfig, DecodeConfig, U64, Utf8, DecodeCall,
         TransferNative, MintNative, BurnNative, Step, UnderCap;
    ConfigRoundTrip(NativeConfig(l.config));
    ReadRecord(store, meta, l, sender);
    match c
    case Transfer(to, amount) =>
      if to == sender {
        SelfTransferNative(store, meta, l, sender, amount, max);
      } else {
        TransferAgrees(store, meta, l, sender, to, amount, max);
      }
    case Mint(to, amount) => MintAgrees(store, meta, l, sender, to, amount, max);
    case Burn(amount) => BurnAgrees(store, meta, l, sender, amount, max);
  }

  /** Both tokens refuse, or both accept with the same event and then hold the same conserving ledger. */
  ghost predicate Agree(wasm: Outcome<(Host, ContractEvent)>, native: Result<ApplyOutcome, ContractError>, id: Id, store: Store, meta: ContractMeta) {
    && (wasm.Done? <==> native.Success?)
    && (wasm.Done? ==>
          exists after: Ledger ::
            && after.Good() && native.value.events == [wasm.value.1]
            && Represents(wasm.value.0.View(), id, after) && NativeRep(Apply(store, native.value.writes), meta, after))
  }

  /** The native records determine every balance. */
  lemma NativeBalance(store: Store, meta: ContractMeta, l: Ledger, m: Ledger, a: u64)
    requires NativeRep(store, meta, l) && NativeRep(store, meta, m)
    ensures l.Balance(a) == m.Balance(a)
  {
    hide ReadNative;
    ReadRecord(store, meta, l, a);
    ReadRecord(store, meta, m, a);
  }

  /** After an affordable transfer to oneself no ledger is held by both: the native balance is larger by the amount. */
  lemma SelfTransferParts(h: Host, store: Store, meta: ContractMeta, l: Ledger, data: Bytes, c: TokenCall, gas: u64, max: u64)
    requires h.Valid() && Roomy(h, 2) && Represents(h.View(), h.id, l) && l.Good()
    requires NativeRep(store, meta, l) && meta.contractId == h.id
    requires DecodeCall(data) == Success(c) && gas >= BaseGas(c) && AffordableSelfTransfer(l, h.sender, c)
    ensures !Agree(Auge20.Execute(h, data), ExecuteNative(store, h.sender, meta, data, gas, max), h.id, store, meta)
  {
    hide Auge20.Execute, ExecuteNative, Represents, NativeRep, Ledger.Good, DecodeCall, Sum, UnderCap;
    var wasm, native := Auge20.Execute(h, data), ExecuteNative(store, h.sender, meta, data, gas, max);
    ExecuteImplements(h, l, data, c);
    NativeImplements(store, meta, l, h.sender, data, c, gas, max);
    var same := Step(l, h.id, h.sender, c).value.0;
    StepGood(l, h.id, h.sender, c);
    TransferMoves(l, h.id, h.sender, h.sender, c.amount, h.sender);
    assert same.Balance(h.sender) == l.Balance(h.sender);
    if native.Success? {
      var inflated := NativeStep(l, h.id, h.sender, c).value.0;
      assert inflated.Balance(h.sender) == l.Balance(h.sender) + c.amount;
      forall after: Ledger | after.Good() && Represents(wasm.value.0.View(), h.id, after)
        ensures !NativeRep(Apply(store, native.value.writes), meta, after)
      {
        RepresentsOne(wasm.value.0.View(), h.id, after, same);
        if NativeRep(Apply(store, native.value.writes), meta, after) {
          NativeBalance(Apply(store, native.value.writes), meta, after, inflated, h.sender);
        }
      }
    }
  }

  /**
    The equivalence, exactly: from the same ledger and under the native cap, the two tokens agree on a call (both refuse,
    or both accept with the same event and next ledger) if and only if it is not an affordable transfer to oneself.
   */
  lemma TokensAgree(h: Host, store: Store, meta: ContractMeta, l: Ledger, data: Bytes, c: TokenCall, gas: u64, max: u64)
    requires h.Valid() && Roomy(h, 2) && Represents(h.View(), h.id, l) && l.Good()
    requires NativeRep(store, meta, l) && meta.contractId == h.id
    requires DecodeCall(data) == Success(c) && gas >= BaseGas(c) && UnderCap(l, h.sender, meta, c, max)
    ensures Agree(Auge20.Execute(h, data), ExecuteNative(store, h.sender, meta, data, gas, max), h.id, store, meta)
            <==> !AffordableSelfTransfer(l, h.sender, c)
  {
    hide Auge20.Execute, ExecuteNative, Represents, NativeRep, Step, Ledger.Good, DecodeCall, UnderCap;
    if AffordableSelfTransfer(l, h.sender, c) {
      SelfTransferParts(h, store, meta, l, data, c, gas, max);
    } else {
      ExecuteImplements(h, l, data, c);
      NativeImplements(store, meta, l, h.sender, data, c, gas, max);
      if Step(l, h.id, h.sender, c).Success? {
        StepGood(l, h.id, h.sender, c);
      }
    }
  }
}
