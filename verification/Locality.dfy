/** What an engine call depends on: records, and of the contract's own snapshot only what its program reads. */
module Locality {
  import opened Bytes
  import opened Hashing
  import opened ContractTypes
  import opened ContractStore
  import opened WriteSort
  import opened WasmHost
  import opened Auge20
  import opened NativeToken
  import opened Engine
  import World
  import CodeStore

  // ---- The token program reads its own cells only ----

  ghost predicate SameCells(a: Store, b: Store, id: Id) { forall x | IsCell(id, x) :: Lookup(a, x) == Lookup(b, x) }

  function Rebased(o: Outcome<(Host, ContractEvent)>, base: Store): Outcome<(Host, ContractEvent)> {
    match o
    case Done((h, e)) => Done((h.(base := base), e))
    case Fail(c) => Fail(c)
    case Trap => Trap
  }

  lemma ReadLocal(h: Host, base: Store, x: Bytes)
    requires SameCells(h.base, base, h.id) && IsCell(h.id, x)
    ensures ReadCell(h.(base := base), x) == ReadCell(h, x) && ReadAmount(h.(base := base), x) == ReadAmount(h, x)
  {
    assert Lookup(h.base, x) == Lookup(base, x);
  }

  lemma WriteLocal(h: Host, base: Store, k: Bytes, v: u64)
    ensures WriteAmount(h.(base := base), k, v) == WriteAmount(h, k, v).(base := base)
    ensures var g := WriteAmount(h, k, v); g.base == h.base && g.id == h.id && g.sender == h.sender
  {
  }

  lemma KnownCells(id: Id, a: u64)
    ensures IsCell(id, TokenKey(id)) && IsCell(id, SupplyKey(id)) && IsCell(id, BalanceKey(id, a))
  {
  }

  lemma TransferLocal(h: Host, base: Store, to: u64, amount: u64)
    requires SameCells(h.base, base, h.id)
    ensures ExecuteTransfer(h.(base := base), to, amount) == Rebased(ExecuteTransfer(h, to, amount), base)
  {
    hide ReadAmount, WriteAmount, BalanceKey, IsCell, SameCells;
    KnownCells(h.id, h.sender);
    KnownCells(h.id, to);
    ReadLocal(h, base, BalanceKey(h.id, h.sender));
    var bal := ReadAmount(h, BalanceKey(h.id, h.sender));
    if amount != 0 && bal.Done? && bal.value >= amount {
      WriteLocal(h, base, BalanceKey(h.id, h.sender), bal.value - amount);
      var g := WriteAmount(h, BalanceKey(h.id, h.sender), bal.value - amount);
      ReadLocal(g, base, BalanceKey(h.id, to));
      var other := ReadAmount(g, BalanceKey(h.id, to));
      if other.Done? && other.value + amount < U64_END {
        WriteLocal(g, base, BalanceKey(h.id, to), other.value + amount);
      }
    }
  }

  lemma MintLocal(h: Host, base: Store, config: TokenState, supply: u64, to: u64, amount: u64)
    requires SameCells(h.base, base, h.id)
    ensures ExecuteMint(h.(base := base), config, supply, to, amount) == Rebased(ExecuteMint(h, config, supply, to, amount), base)
  {
    hide ReadAmount, WriteAmount, BalanceKey, SupplyKey, IsCell, SameCells;
    KnownCells(h.id, to);
    if MintGuard(h, config, supply, amount) {
      WriteLocal(h, base, SupplyKey(h.id), supply + amount);
      var g := WriteAmount(h, SupplyKey(h.id), supply + amount);
      ReadLocal(g, base, BalanceKey(h.id, to));
      var bal := ReadAmount(g, BalanceKey(h.id, to));
      if bal.Done? && bal.value + amount < U64_END {
        WriteLocal(g, base, BalanceKey(h.id, to), bal.value + amount);
      }
    }
  }

  lemma BurnLocal(h: Host, base: Store, config: TokenState, supply: u64, amount: u64)
    requires SameCells(h.base, base, h.id)
    ensures ExecuteBurn(h.(base := base), config, supply, amount) == Rebased(ExecuteBurn(h, config, supply, amount), base)
  {
    hide ReadAmount, WriteAmount, BalanceKey, SupplyKey, IsCell, SameCells;
    KnownCells(h.id, h.sender);
    ReadLocal(h, base, BalanceKey(h.id, h.sender));
    var bal := ReadAmount(h, BalanceKey(h.id, h.sender));
    if bal.Done? && bal.value >= amount && supply >= amount {
      WriteLocal(h, base, SupplyKey(h.id), supply - amount);
      WriteLocal(WriteAmount(h, SupplyKey(h.id), supply - amount), base, BalanceKey(h.id, h.sender), bal.value - amount);
    }
  }

  /** On a snapshot with the same cells the program decides, writes and reports the same. */
  lemma ExecuteLocal(h: Host, base: Store, input: Bytes)
    requires SameCells(h.base, base, h.id)
    ensures Auge20.Execute(h.(base := base), input) == Rebased(Auge20.Execute(h, input), base)
  {
    hide ReadCell, ReadAmount, ReadU8, DecodeCall, DecodeState, ExecuteTransfer, ExecuteMint, ExecuteBurn, TokenKey, SupplyKey, IsCell, SameCells;
    KnownCells(h.id, 0);
    ReadLocal(h, base, TokenKey(h.id));
    ReadLocal(h, base, SupplyKey(h.id));
    var config, supply, call := ReadConfig(h), ReadAmount(h, SupplyKey(h.id)), DecodeCall(input);
    if config.Done? && supply.Done? && call.Success? {
      match call.value
      case Transfer(to, amount) => TransferLocal(h, base, to, amount);
      case Mint(to, amount) => MintLocal(h, base, config.value, supply.value, to, amount);
      case Burn(amount) => BurnLocal(h, base, config.value, supply.value, amount);
    }
  }

  lemma StepLocal(h: Host, base: Store, c: HostCall)
    ensures h.(base := base).Step(c) == h.Step(c).(base := base)
    ensures h.Step(c).base == h.base && h.Step(c).id == h.id && h.Step(c).sender == h.sender
  {
  }

  function RebasedHost(o: Outcome<Host>, base: Store): Outcome<Host> {
    match o
    case Done(g) => Done(g.(base := base))
    case Fail(c) => Fail(c)
    case Trap => Trap
  }

  /** Instantiation reads nothing. */
  lemma InstantiateLocal(h: Host, base: Store, input: Bytes)
    ensures Instantiate(h.(base := base), input) == RebasedHost(Instantiate(h, input), base)
  {
    hide ParseGuestInit, EncodeState, WriteAmount, TokenKey, SupplyKey, BalanceKey, Host.Step;
    var t := ParseGuestInit(input);
    if t.Success? {
      var c := Put(TokenKey(h.id), EncodeState(ConfigOf(t.value, h.sender)));
      StepLocal(h, base, c);
      var g := h.Step(c);
      WriteLocal(g, base, SupplyKey(h.id), t.value.initialSupply);
      WriteLocal(WriteAmount(g, SupplyKey(h.id), t.value.initialSupply), base, BalanceKey(h.id, h.sender), t.value.initialSupply);
    }
  }

  lemma {:induction false} RunLocal(h: Host, base: Store, cs: seq<HostCall>)
    ensures h.(base := base).Run(cs) == h.Run(cs).(base := base)
  {
    hide Host.Step;
    if cs != [] {
      RunLocal(h, base, cs[..|cs| - 1]);
      StepLocal(h.Run(cs[..|cs| - 1]), base, cs[|cs| - 1]);
    }
  }

  /** What is harvested does not depend on the snapshot either. */
  lemma HarvestLocal(h: Host, base: Store, prior: seq<WriteOp>)
    requires DistinctKeys(prior) && forall w | w in prior :: !IsStateKey(w.key)
    ensures Harvest(prior, h.exceeded, SomeLog(h.(base := base))) == Harvest(prior, h.exceeded, SomeLog(h))
  {
    hide Harvest;
    var g := h.(base := base);
    assert forall k :: Entry(g, k) == Entry(h, k);
    assert IsLog(h, SomeLog(g));
    HarvestOrderFree(h, prior, SomeLog(g), SomeLog(h));
  }

  // ---- The token program writes its own cells only ----

  ghost predicate TouchesCells(h: Host) { forall k | k in h.written || k in h.deleted :: IsCell(h.id, k) }

  lemma WriteTouches(h: Host, k: Bytes, v: u64)
    requires TouchesCells(h) && IsCell(h.id, k)
    ensures TouchesCells(WriteAmount(h, k, v)) && WriteAmount(h, k, v).id == h.id && WriteAmount(h, k, v).sender == h.sender
  {
    hide IsCell;
  }

  lemma TransferTouches(h: Host, to: u64, amount: u64)
    requires TouchesCells(h) && ExecuteTransfer(h, to, amount).Done?
    ensures var g := ExecuteTransfer(h, to, amount).value.0; TouchesCells(g) && g.id == h.id
  {
    hide ReadAmount, WriteAmount, BalanceKey, IsCell, TouchesCells;
    KnownCells(h.id, h.sender);
    KnownCells(h.id, to);
    var rest := ReadAmount(h, BalanceKey(h.id, h.sender)).value - amount;
    WriteTouches(h, BalanceKey(h.id, h.sender), rest);
    var g := WriteAmount(h, BalanceKey(h.id, h.sender), rest);
    WriteTouches(g, BalanceKey(h.id, to), ReadAmount(g, BalanceKey(h.id, to)).value + amount);
  }

  lemma MintTouches(h: Host, config: TokenState, supply: u64, to: u64, amount: u64)
    requires TouchesCells(h) && ExecuteMint(h, config, supply, to, amount).Done?
    ensures var g := ExecuteMint(h, config, supply, to, amount).value.0; TouchesCells(g) && g.id == h.id
  {
    hide ReadAmount, WriteAmount, BalanceKey, SupplyKey, IsCell, TouchesCells;
    KnownCells(h.id, to);
    WriteTouches(h, SupplyKey(h.id), supply + amount);
    var g := WriteAmount(h, SupplyKey(h.id), supply + amount);
    WriteTouches(g, BalanceKey(h.id, to), ReadAmount(g, BalanceKey(h.id, to)).value + amount);
  }

  lemma BurnTouches(h: Host, config: TokenState, supply: u64, amount: u64)
    requires TouchesCells(h) && ExecuteBurn(h, config, supply, amount).Done?
    ensures var g := ExecuteBurn(h, config, supply, amount).value.0; TouchesCells(g) && g.id == h.id
  {
    hide ReadAmount, WriteAmount, BalanceKey, SupplyKey, IsCell, TouchesCells;
    KnownCells(h.id, h.sender);
    WriteTouches(h, SupplyKey(h.id), supply - amount);
    var g := WriteAmount(h, SupplyKey(h.id), supply - amount);
    WriteTouches(g, BalanceKey(h.id, h.sender), ReadAmount(h, BalanceKey(h.id, h.sender)).value - amount);
  }

  lemma ExecuteTouches(h: Host, input: Bytes)
    requires TouchesCells(h) && Auge20.Execute(h, input).Done?
    ensures var g := Auge20.Execute(h, input).value.0; TouchesCells(g) && g.id == h.id
  {
    hide ReadAmount, ReadConfig, ReadU8, DecodeCall, ExecuteTransfer, ExecuteMint, ExecuteBurn, TouchesCells;
    match DecodeCall(input).value
    case Transfer(to, amount) => TransferTouches(h, to, amount);
    case Mint(to, amount) => MintTouches(h, ReadConfig(h).value, ReadAmount(h, SupplyKey(h.id)).value, to, amount);
    case Burn(amount) => BurnTouches(h, ReadConfig(h).value, ReadAmount(h, SupplyKey(h.id)).value, amount);
  }

  lemma InstantiateTouches(h: Host, input: Bytes)
    requires TouchesCells(h) && Instantiate(h, input).Done?
    ensures TouchesCells(Instantiate(h, input).value) && Instantiate(h, input).value.id == h.id
  {
    hide ParseGuestInit, EncodeState, WriteAmount, U64, TokenKey, SupplyKey, BalanceKey, IsCell;
    KnownCells(h.id, h.sender);
    var t := ParseGuestInit(input).value;
    var g := h.Step(Put(TokenKey(h.id), EncodeState(ConfigOf(t, h.sender))));
    WriteTouches(g, SupplyKey(h.id), t.initialSupply);
    WriteTouches(WriteAmount(g, SupplyKey(h.id), t.initialSupply), BalanceKey(h.id, h.sender), t.initialSupply);
  }

  /** Everything such a run has harvested is a cell of the token. */
  lemma HarvestTouches(h: Host, ws: seq<WriteOp>, w: WriteOp)
    requires TouchesCells(h) && Harvest([], h.exceeded, SomeLog(h)) == Success(ws) && w in ws
    ensures exists x :: IsCell(h.id, x) && w.key == KeyState(h.id, x)
  {
    hide IsCell, KeyState;
    var log := SomeLog(h);
    assert [] + log == log;
    SortKeeps(log);
    var k :| k in h.written.Keys + h.deleted && w == Entry(h, k);
    assert IsCell(h.id, k);
  }

  // ---- Engine calls ----

  /** Both stores hold the same records: code, contract metadata and the counter. */
  ghost predicate SameRecords(a: Store, b: Store) { forall k | !IsStateKey(k) :: Lookup(a, k) == Lookup(b, k) }

  lemma RecordsAgree(a: Store, b: Store, id: Id, code: u64)
    requires SameRecords(a, b)
    ensures Lookup(a, KeyContract(id)) == Lookup(b, KeyContract(id)) && Lookup(a, KeyCode(code)) == Lookup(b, KeyCode(code))
  {
    hide KeyContract, KeyCode, Lookup;
    SystemKeysOutside(code, id, id, 0);
  }

  lemma HostLocal(a: Store, b: Store, sender: u64, height: u64, id: Id)
    ensures NewHost(b, sender, height, id) == NewHost(a, sender, height, id).(base := Snapshot(b, id))
    ensures NewHost(a, sender, height, id).base == Snapshot(a, id) && NewHost(a, sender, height, id).id == id
  {
    hide Snapshot;
  }

  lemma TokenCallLocal(a: Store, b: Store, sender: u64, id: Id, data: Bytes, height: u64, gas: u64, fuel: Fuel)
    requires SameCells(Snapshot(a, id), Snapshot(b, id), id)
    ensures ExecuteToken(a, sender, id, data, height, gas, fuel) == ExecuteToken(b, sender, id, data, height, gas, fuel)
  {
    hide Snapshot, NewHost, Auge20.Execute, Harvest, DecodeCall, EncodeEvent, Surface, SameCells;
    HostLocal(a, b, sender, height, id);
    var h := NewHost(a, sender, height, id);
    ExecuteLocal(h, Snapshot(b, id), data);
    if Auge20.Execute(h, data).Done? {
      HarvestLocal(Auge20.Execute(h, data).value.0, Snapshot(b, id), []);
    }
  }

  lemma TokenCreateLocal(H: Digest, a: Store, b: Store, sender: u64, data: Bytes, height: u64, gas: u64, fuel: Fuel)
    requires SameRecords(a, b)
    ensures CreateToken(H, a, sender, data, height, gas, fuel) == CreateToken(H, b, sender, data, height, gas, fuel)
  {
    hide Snapshot, NewHost, Instantiate, Harvest, CheckInit, ContractIdOf, KeyContract, SameRecords, EncodeMeta;
    var id := ContractIdOf(H, sender, AUGE20_CODE_ID, data);
    RecordsAgree(a, b, id, 0);
    HostLocal(a, b, sender, height, id);
    var h := NewHost(a, sender, height, id);
    InstantiateLocal(h, Snapshot(b, id), data);
    if Instantiate(h, data).Done? {
      HarvestLocal(Instantiate(h, data).value, Snapshot(b, id), []);
    }
  }

  lemma StoredCallLocal(a: Store, b: Store, sender: u64, meta: ContractMeta, id: Id, height: u64, gas: u64, g: Guest, fuel: Fuel)
    requires SameRecords(a, b)
    ensures ExecuteStored(a, sender, meta, id, height, gas, g, fuel) == ExecuteStored(b, sender, meta, id, height, gas, g, fuel)
  {
    hide Snapshot, NewHost, Harvest, DecodeCode, KeyCode, SameRecords, Surface, Host.Run;
    RecordsAgree(a, b, id, meta.codeId);
    HostLocal(a, b, sender, height, id);
    var h := NewHost(a, sender, height, id);
    RunLocal(h, Snapshot(b, id), g.calls);
    HarvestLocal(h.Run(g.calls), Snapshot(b, id), []);
  }

  lemma StoredCreateLocal(H: Digest, a: Store, b: Store, sender: u64, codeId: u64, data: Bytes, height: u64, gas: u64, g: Guest, fuel: Fuel)
    requires SameRecords(a, b)
    ensures CreateStored(H, a, sender, codeId, data, height, gas, g, fuel) == CreateStored(H, b, sender, codeId, data, height, gas, g, fuel)
  {
    hide Snapshot, NewHost, Harvest, DecodeCode, KeyCode, KeyContract, SameRecords, Surface, Host.Run, ContractIdOf, EncodeMeta;
    var id := ContractIdOf(H, sender, codeId, data);
    RecordsAgree(a, b, id, codeId);
    HostLocal(a, b, sender, height, id);
    var h := NewHost(a, sender, height, id);
    RunLocal(h, Snapshot(b, id), g.calls);
    var prior := [MetaWrite(NewMeta(id, sender, codeId, height))];
    SystemKeysOutside(0, id, id, 0);
    HarvestLocal(h.Run(g.calls), Snapshot(b, id), prior);
  }

  /** A call other than an upload gives the same outcome on stores with the same records and, for a token, the same cells. */
  lemma PerformLocal(H: Digest, lim: Limits, a: Store, b: Store, tokens: World.Tokens, c: World.Call)
    requires World.Inv(a, tokens) && SameRecords(a, b) && !c.Upload?
    requires c.Invoke? && c.id in tokens ==> SameCells(Snapshot(a, c.id), Snapshot(b, c.id), c.id)
    ensures World.Perform(H, lim, a, c) == World.Perform(H, lim, b, c)
  {
    hide Snapshot, CreateToken, CreateStored, ExecuteToken, ExecuteStored, ExecuteNative, DecodeMeta, KeyContract, SameRecords, SameCells, World.Inv;
    match c
    case Create(sender, codeId, data, height, gas, guest, fuel) =>
      if codeId == AUGE20_CODE_ID {
        TokenCreateLocal(H, a, b, sender, data, height, gas, fuel);
      } else {
        StoredCreateLocal(H, a, b, sender, codeId, data, height, gas, guest, fuel);
      }
    case Invoke(sender, id, data, height, gas, guest, fuel) =>
      RecordsAgree(a, b, id, 0);
      if KeyContract(id) in a {
        CodeStore.InvKnows(a, tokens, id);
        if id in tokens {
          TokenCallLocal(a, b, sender, id, data, height, gas, fuel);
        } else {
          StoredCallLocal(a, b, sender, DecodeMeta(a[KeyContract(id)]).value, id, height, gas, guest, fuel);
        }
      }
  }
}
