/** The token program as it runs: reading a cursor and calling the host step by step. */
module Auge20Guest {
  import opened Bytes
  import opened Codec
  import opened ContractTypes
  import opened ContractStore
  import opened WasmHost
  import opened Auge20

  /** A length word followed by that many bytes; a bad length leaves the cursor behind the word. */
  method TakeBytes32(r: Reader) returns (v: Result<Bytes, DecodeError>)
    requires r.Valid()
    modifies r
    ensures r.Valid() && v == Value(ReadBytes32(old(r.Rest())))
    ensures r.Rest() == if v.Success? then ReadBytes32(old(r.Rest())).value.1 else ReadName(old(r.Rest())).1
  {
    var n :- r.U32();
    v := r.Fixed(n);
  }

  method TakeName(r: Reader) returns (v: Bytes)
    requires r.Valid()
    modifies r
    ensures r.Valid() && (v, r.Rest()) == ReadName(old(r.Rest()))
  {
    var b := TakeBytes32(r);
    v := if b.Success? then b.value else [];
  }

  method ReadParams(input: Bytes) returns (t: Result<TokenInit, DecodeError>)
    ensures t == ParseGuestInit(input)
  {
    hide ReadU8, ReadBool, ReadU64, ReadName, Reader.Rest;
    var r := new Reader(input);
    var decimals :- r.U8();
    var mint :- r.Bool();
    var burn :- r.Bool();
    var initial :- r.U64();
    var max :- r.U64();
    var name := TakeName(r);
    if |name| > MAX_NAME {
      return Failure(InvalidSerialization);
    }
    var symbol := TakeName(r);
    if |symbol| > MAX_NAME {
      return Failure(InvalidSerialization);
    }
    var end := r.AtEnd();
    if !end {
      return Failure(InvalidSerialization);
    }
    t := Success(TokenInit(name, symbol, decimals, initial, max, mint, burn));
  }

  /** Reading an amount cell; `None` is the trap of an oversized cell. */
  method LoadAmount(host: HostObject, key: Bytes) returns (v: Option<u64>)
    ensures ReadAmount(host.State(), key) == match v case Some(n) => Done(n) case None => Trap
  {
    var cell := host.StorageRead(key);
    if cell.Some? && |cell.value| > MAX_CELL {
      return None;
    }
    if cell.None? || |cell.value| != 8 {
      return Some(0);
    }
    v := Some(FromU64(cell.value));
  }

  method StoreAmount(host: HostObject, key: Bytes, v: u64)
    modifies host
    ensures host.State() == WriteAmount(old(host.State()), key, v) && host.events == old(host.events)
  {
    host.StorageWrite(key, U64(v));
  }

  /** What the guest hands back: its output bytes, or nothing if it trapped. */
  ghost predicate Returns(out: Option<Bytes>, o: Outcome<(Host, ContractEvent)>, host: Host, events: seq<Bytes>, emitted: seq<Bytes>) {
    match o
    case Trap => out == None
    case Fail(c) => out == Some(ErrorReport(c))
    case Done((h, e)) => out == Some([]) && host == h && events == emitted + [EncodeEvent(e)]
  }

  method RunInstantiate(host: HostObject, input: Bytes) returns (out: Option<Bytes>)
    modifies host
    ensures match Instantiate(old(host.State()), input)
            case Trap => out == None
            case Fail(c) => out == Some(ErrorReport(c))
            case Done(h) => out == Some([]) && host.State() == h && host.events == old(host.events)
  {
    if |input| > MAX_INPUT {
      return Some(ErrorReport(ERR_SERIALIZATION));
    }
    var t := ReadParams(input);
    if t.Failure? {
      return Some(ErrorReport(ERR_SERIALIZATION));
    }
    if t.value.name == [] || t.value.symbol == [] || t.value.decimals > 18 {
      return Some(ErrorReport(ERR_INVALID_AMOUNT));
    }
    if t.value.initialSupply > t.value.maxSupply {
      return Some(ErrorReport(ERR_MAX_SUPPLY));
    }
    host.StorageWrite(TokenKey(host.id), EncodeState(ConfigOf(t.value, host.sender)));
    StoreAmount(host, SupplyKey(host.id), t.value.initialSupply);
    StoreAmount(host, BalanceKey(host.id, host.sender), t.value.initialSupply);
    out := Some([]);
  }

  method RunTransfer(host: HostObject, to: u64, amount: u64) returns (out: Option<Bytes>)
    modifies host
    ensures Returns(out, ExecuteTransfer(old(host.State()), to, amount), host.State(), host.events, old(host.events))
    ensures !ExecuteTransfer(old(host.State()), to, amount).Done? ==> host.events == old(host.events)
    ensures ExecuteTransfer(old(host.State()), to, amount).Fail? ==>
              var h := old(host.State());
              if TransferGuard(h, amount)
              then host.State() == WriteAmount(h, BalanceKey(h.id, h.sender), ReadAmount(h, BalanceKey(h.id, h.sender)).value - amount)
              else host.State() == h
  {
    hide ReadAmount, WriteAmount, BalanceKey, EncodeEvent, U64;
    if amount == 0 {
      return Some(ErrorReport(ERR_INVALID_AMOUNT));
    }
    var fromBal := LoadAmount(host, BalanceKey(host.id, host.sender));
    if fromBal.None? {
      return None;
    }
    if fromBal.value < amount {
      return Some(ErrorReport(ERR_INSUFFICIENT));
    }
    StoreAmount(host, BalanceKey(host.id, host.sender), fromBal.value - amount);
    var toBal := LoadAmount(host, BalanceKey(host.id, to));
    if toBal.None? {
      return None;
    }
    if toBal.value + amount >= U64_END {
      return Some(ErrorReport(ERR_OVERFLOW));
    }
    StoreAmount(host, BalanceKey(host.id, to), toBal.value + amount);
    host.EmitEvent(EncodeEvent(TokenTransferred(host.id, host.sender, to, amount)));
    out := Some([]);
  }

  method RunMint(host: HostObject, config: TokenState, supply: u64, to: u64, amount: u64) returns (out: Option<Bytes>)
    modifies host
    ensures Returns(out, ExecuteMint(old(host.State()), config, supply, to, amount), host.State(), host.events, old(host.events))
    ensures !ExecuteMint(old(host.State()), config, supply, to, amount).Done? ==> host.events == old(host.events)
    ensures ExecuteMint(old(host.State()), config, supply, to, amount).Fail? ==>
              var h := old(host.State());
              if MintGuard(h, config, supply, amount)
              then host.State() == WriteAmount(h, SupplyKey(h.id), supply + amount)
              else host.State() == h
  {
    hide ReadAmount, WriteAmount, BalanceKey, SupplyKey, EncodeEvent, U64;
    if amount == 0 {
      return Some(ErrorReport(ERR_INVALID_AMOUNT));
    }
    if host.sender != config.owner {
      return Some(ErrorReport(ERR_UNAUTHORIZED));
    }
    if !config.mintEnabled {
      return Some(ErrorReport(ERR_MINT_DISABLED));
    }
    if supply + amount >= U64_END {
      return Some(ErrorReport(ERR_OVERFLOW));
    }
    if supply + amount > config.maxSupply {
      return Some(ErrorReport(ERR_MAX_SUPPLY));
    }
    StoreAmount(host, SupplyKey(host.id), supply + amount);
    var toBal := LoadAmount(host, BalanceKey(host.id, to));
    if toBal.None? {
      return None;
    }
    if toBal.value + amount >= U64_END {
      return Some(ErrorReport(ERR_OVERFLOW));
    }
    StoreAmount(host, BalanceKey(host.id, to), toBal.value + amount);
    host.EmitEvent(EncodeEvent(TokenMinted(host.id, to, amount)));
    out := Some([]);
  }

  method RunBurn(host: HostObject, config: TokenState, supply: u64, amount: u64) returns (out: Option<Bytes>)
    modifies host
    ensures Returns(out, ExecuteBurn(old(host.State()), config, supply, amount), host.State(), host.events, old(host.events))
    ensures !ExecuteBurn(old(host.State()), config, supply, amount).Done? ==>
              host.State() == old(host.State()) && host.events == old(host.events)
  {
    hide ReadAmount, WriteAmount, BalanceKey, SupplyKey, EncodeEvent, U64;
    if amount == 0 {
      return Some(ErrorReport(ERR_INVALID_AMOUNT));
    }
    if !config.burnEnabled {
      return Some(ErrorReport(ERR_BURN_DISABLED));
    }
    var bal := LoadAmount(host, BalanceKey(host.id, host.sender));
    if bal.None? {
      return None;
    }
    if bal.value < amount {
      return Some(ErrorReport(ERR_INSUFFICIENT));
    }
    if supply < amount {
      return Some(ErrorReport(ERR_OVERFLOW));
    }
    StoreAmount(host, SupplyKey(host.id), supply - amount);
    StoreAmount(host, BalanceKey(host.id, host.sender), bal.value - amount);
    host.EmitEvent(EncodeEvent(TokenBurned(host.id, host.sender, amount)));
    out := Some([]);
  }

  /** The call word and its operands, with nothing left over. */
  method TakeCall(input: Bytes) returns (c: Result<TokenCall, DecodeError>)
    ensures c == DecodeCall(input)
  {
    hide ReadU8, ReadU64, Reader.Rest;
    var r := new Reader(input);
    var tag :- r.U8();
    var call: TokenCall;
    if tag == 0 || tag == 1 {
      var to :- r.U64();
      var amount :- r.U64();
      call := if tag == 0 then Transfer(to, amount) else Mint(to, amount);
    } else if tag == 2 {
      var amount :- r.U64();
      call := Burn(amount);
    } else {
      return Failure(InvalidSerialization);
    }
    var end := r.AtEnd();
    c := if end then Success(call) else Failure(InvalidSerialization);
  }

  /** The configuration cell: trapped, unreadable, or decoded. */
  method LoadConfig(host: HostObject) returns (c: Outcome<TokenState>)
    ensures c == ReadConfig(host.State())
  {
    var cell := host.StorageRead(TokenKey(host.id));
    if cell.None? {
      return Fail(ERR_SERIALIZATION);
    }
    if |cell.value| > MAX_CELL {
      return Trap;
    }
    var t := TakeState(cell.value);
    c := if t.Success? then Done(t.value) else Fail(ERR_SERIALIZATION);
  }

  method TakeState(raw: Bytes) returns (t: Result<TokenState, DecodeError>)
    ensures t == DecodeState(raw)
  {
    hide ReadU8, ReadBool, ReadU64, ReadBytes32, ReadName, Reader.Rest;
    var r := new Reader(raw);
    var decimals :- r.U8();
    var mint :- r.Bool();
    var burn :- r.Bool();
    var max :- r.U64();
    var owner :- r.U64();
    var name :- TakeBytes32(r);
    if |name| > MAX_NAME {
      return Failure(InvalidSerialization);
    }
    var symbol :- TakeBytes32(r);
    if |symbol| > MAX_NAME {
      return Failure(InvalidSerialization);
    }
    var end := r.AtEnd();
    t := if end then Success(TokenState(decimals, mint, burn, max, owner, name, symbol)) else Failure(InvalidSerialization);
  }

  method RunExecute(host: HostObject, input: Bytes) returns (out: Option<Bytes>)
    modifies host
    ensures Returns(out, Auge20.Execute(old(host.State()), input), host.State(), host.events, old(host.events))
    ensures !Auge20.Execute(old(host.State()), input).Done? ==> host.events == old(host.events)
  {
    hide ReadAmount, ReadConfig, SupplyKey, BalanceKey, EncodeEvent, DecodeCall, ExecuteTransfer, ExecuteMint, ExecuteBurn, ReadU8,
         TransferGuard, MintGuard, WriteAmount, ErrorReport, Reader.Rest;
    if |input| > MAX_INPUT {
      return Some(ErrorReport(ERR_SERIALIZATION));
    }
    var r := new Reader(input);
    var tag := r.U8();
    if tag.Failure? {
      return Some(ErrorReport(ERR_SERIALIZATION));
    }
    var config := LoadConfig(host);
    match config {
      case Trap => return None;
      case Fail(c) => return Some(ErrorReport(c));
      case Done(_) =>
    }
    var supply := LoadAmount(host, SupplyKey(host.id));
    if supply.None? {
      return None;
    }
    var call := TakeCall(input);
    if call.Failure? {
      return Some(ErrorReport(ERR_SERIALIZATION));
    }
    match call.value {
      case Transfer(to, amount) => out := RunTransfer(host, to, amount);
      case Mint(to, amount) => out := RunMint(host, config.value, supply.value, to, amount);
      case Burn(amount) => out := RunBurn(host, config.value, supply.value, amount);
    }
  }

  method RunQuery(host: HostObject, input: Bytes) returns (out: Option<Bytes>)
    ensures match Auge20.Query(host.State(), input)
            case Trap => out == None
            case Fail(c) => out == Some(ErrorReport(c))
            case Done(q) => out == Some(EncodeResult(q))
  {
    hide ReadAmount, ReadConfig, BalanceKey, SupplyKey, EncodeResult, ReadU8, ReadU64, Reader.Rest;
    if |input| > MAX_INPUT {
      return Some(ErrorReport(ERR_SERIALIZATION));
    }
    var r := new Reader(input);
    var tag := r.U8();
    if tag.Failure? {
      return Some(ErrorReport(ERR_SERIALIZATION));
    }
    if tag.value == 0 {
      var addr := r.U64();
      var end := r.AtEnd();
      if addr.Failure? || !end {
        return Some(ErrorReport(ERR_SERIALIZATION));
      }
      var bal := LoadAmount(host, BalanceKey(host.id, addr.value));
      return if bal.Some? then Some(EncodeResult(Balance(bal.value))) else None;
    }
    var end := r.AtEnd();
    if tag.value > 2 || !end {
      return Some(ErrorReport(ERR_SERIALIZATION));
    }
    var c := TokenState(0, false, false, 0, 0, [], []);
    if tag.value == 2 {
      var config := LoadConfig(host);
      match config {
        case Trap => return None;
        case Fail(code) => return Some(ErrorReport(code));
        case Done(t) => c := t;
      }
    }
    var supply := LoadAmount(host, SupplyKey(host.id));
    if supply.None? {
      return None;
    }
    out := Some(EncodeResult(
      if tag.value == 1 then Supply(supply.value)
      else Info(TokenInfoView(c.name, c.symbol, c.decimals, c.maxSupply, c.mintEnabled, c.burnEnabled, c.owner, supply.value))));
  }
}
