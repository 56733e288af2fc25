/** The AUGE20 token program: a ledger kept in big-endian cells behind the host's storage calls. */
module Auge20 {
  import opened Bytes
  import opened ContractTypes
  import opened ContractStore
  import opened WasmHost

  const ERR_INVALID_AMOUNT: byte := 1
  const ERR_INSUFFICIENT: byte := 2
  const ERR_UNAUTHORIZED: byte := 3
  const ERR_MINT_DISABLED: byte := 4
  const ERR_BURN_DISABLED: byte := 5
  const ERR_MAX_SUPPLY: byte := 6
  const ERR_OVERFLOW: byte := 7
  const ERR_SERIALIZATION: byte := 8

  const MAX_INPUT := 4096
  const MAX_CELL := 2048
  const MAX_NAME := 64
  const U64_END := 0x1_0000_0000_0000_0000

  /** A guest call completes, reports one of its own error codes, or traps in a host call. */
  datatype Outcome<+T> = Done(value: T) | Fail(code: byte) | Trap {
    predicate IsFailure() { !Done? }
    function PropagateFailure<U>(): Outcome<U>
      requires !Done?
    {
      match this
      case Fail(c) => Fail(c)
      case Trap => Trap
    }
    function Extract(): T
      requires Done?
    {
      value
    }
  }

  // ---- Cells ----

  function TokenKey(id: Id): Bytes { id + [84] }
  function SupplyKey(id: Id): Bytes { id + [83] }
  function BalanceKey(id: Id, addr: u64): Bytes { id + ([66] + U64(addr)) }

  /** One of the cells of token `id`. */
  ghost predicate IsCell(id: Id, x: Bytes) { x == TokenKey(id) || x == SupplyKey(id) || exists a: u64 :: x == BalanceKey(id, a) }

  /** Every cell key starts with its token's id, so no two tokens share one. */
  lemma CellOwner(id: Id, x: Bytes)
    requires IsCell(id, x)
    ensures |x| >= 33 && x[..32] == id
  {
    hide U64;
  }

  lemma CellsApart(id: Id, a: u64, b: u64)
    ensures TokenKey(id) != SupplyKey(id) && TokenKey(id) != BalanceKey(id, a) && SupplyKey(id) != BalanceKey(id, a)
    ensures BalanceKey(id, a) == BalanceKey(id, b) ==> a == b
  {
    assert TokenKey(id)[32] == 84 && SupplyKey(id)[32] == 83 && BalanceKey(id, a)[32] == 66;
    if BalanceKey(id, a) == BalanceKey(id, b) {
      assert BalanceKey(id, a)[33..] == U64(a) && BalanceKey(id, b)[33..] == U64(b);
      U64Injective(a, b);
    }
  }

  /** The runtime traps when a cell does not fit the guest's buffer. */
  function ReadCell(h: Host, key: Bytes): Outcome<Option<Bytes>> {
    var v := h.Read(key);
    if v.Some? && |v.value| > MAX_CELL then Trap else Done(v)
  }

  /** A missing cell, or one that is not eight bytes wide, counts as zero. */
  function ReadAmount(h: Host, key: Bytes): Outcome<u64> {
    var v :- ReadCell(h, key);
    Done(if v.Some? && |v.value| == 8 then FromU64(v.value) else 0)
  }

  function WriteAmount(h: Host, key: Bytes, v: u64): Host { h.Step(Put(key, U64(v))) }

  function ReadConfig(h: Host): Outcome<TokenState> {
    var v :- ReadCell(h, TokenKey(h.id));
    if v.None? then Fail(ERR_SERIALIZATION) else
    var t := DecodeState(v.value);
    if t.Failure? then Fail(ERR_SERIALIZATION) else Done(t.value)
  }

  // ---- instantiate ----

  /** A name field that does not parse reads as empty; only its length word, if present, is consumed. */
  function ReadName(s: Bytes): (Bytes, Bytes) {
    var r := ReadBytes32(s);
    if r.Success? then r.value
    else
      var n := ReadU32(s);
      ([], if n.Success? then n.value.1 else s)
  }

  function ParseGuestInit(input: Bytes): Result<TokenInit, DecodeError> {
    var (decimals, s) :- ReadU8(input);
    var (mint, s) :- ReadBool(s);
    var (burn, s) :- ReadBool(s);
    var (initial, s) :- ReadU64(s);
    var (max, s) :- ReadU64(s);
    var (name, s) := ReadName(s);
    if |name| > MAX_NAME then Failure(InvalidSerialization) else
    var (symbol, s) := ReadName(s);
    if |symbol| > MAX_NAME || s != [] then Failure(InvalidSerialization) else
    Success(TokenInit(name, symbol, decimals, initial, max, mint, burn))
  }

  function ConfigOf(t: TokenInit, owner: u64): TokenState {
    TokenState(t.decimals, t.mintEnabled, t.burnEnabled, t.maxSupply, owner, t.name, t.symbol)
  }

  function Instantiate(h: Host, input: Bytes): Outcome<Host> {
    if |input| > MAX_INPUT then Fail(ERR_SERIALIZATION) else
    var t := ParseGuestInit(input);
    if t.Failure? then Fail(ERR_SERIALIZATION)
    else if t.value.name == [] || t.value.symbol == [] then Fail(ERR_INVALID_AMOUNT)
    else if t.value.decimals > 18 then Fail(ERR_INVALID_AMOUNT)
    else if t.value.initialSupply > t.value.maxSupply then Fail(ERR_MAX_SUPPLY)
    else
      var h := h.Step(Put(TokenKey(h.id), EncodeState(ConfigOf(t.value, h.sender))));
      var h := WriteAmount(h, SupplyKey(h.id), t.value.initialSupply);
      Done(WriteAmount(h, BalanceKey(h.id, h.sender), t.value.initialSupply))
  }

  // ---- execute ----

  function Execute(h: Host, input: Bytes): Outcome<(Host, ContractEvent)> {
    if |input| > MAX_INPUT then Fail(ERR_SERIALIZATION) else
    var tag := ReadU8(input);
    if tag.Failure? then Fail(ERR_SERIALIZATION) else
    var config :- ReadConfig(h);
    var supply :- ReadAmount(h, SupplyKey(h.id));
    var call := DecodeCall(input);
    if call.Failure? then Fail(ERR_SERIALIZATION) else
    match call.value
    case Transfer(to, amount) => ExecuteTransfer(h, to, amount)
    case Mint(to, amount) => ExecuteMint(h, config, supply, to, amount)
    case Burn(amount) => ExecuteBurn(h, config, supply, amount)
  }

  /** The checks a transfer passes before its first write. */
  predicate TransferGuard(h: Host, amount: u64) {
    && amount != 0
    && var bal := ReadAmount(h, BalanceKey(h.id, h.sender));
       bal.Done? && bal.value >= amount
  }

  /** The checks a mint passes before its first write. */
  predicate MintGuard(h: Host, config: TokenState, supply: u64, amount: u64) {
    amount != 0 && h.sender == config.owner && config.mintEnabled && supply + amount < U64_END && supply + amount <= config.maxSupply
  }

  /** The recipient's balance is read after the sender's was written, so a self-transfer sees the debit. */
  function ExecuteTransfer(h: Host, to: u64, amount: u64): Outcome<(Host, ContractEvent)> {
    if amount == 0 then Fail(ERR_INVALID_AMOUNT) else
    var fromBal :- ReadAmount(h, BalanceKey(h.id, h.sender));
    if fromBal < amount then Fail(ERR_INSUFFICIENT) else
    var h := WriteAmount(h, BalanceKey(h.id, h.sender), fromBal - amount);
    var toBal :- ReadAmount(h, BalanceKey(h.id, to));
    if toBal + amount >= U64_END then Fail(ERR_OVERFLOW) else
    Done((WriteAmount(h, BalanceKey(h.id, to), toBal + amount), TokenTransferred(h.id, h.sender, to, amount)))
  }

  function ExecuteMint(h: Host, config: TokenState, supply: u64, to: u64, amount: u64): Outcome<(Host, ContractEvent)> {
    if amount == 0 then Fail(ERR_INVALID_AMOUNT)
    else if h.sender != config.owner then Fail(ERR_UNAUTHORIZED)
    else if !config.mintEnabled then Fail(ERR_MINT_DISABLED)
    else if supply + amount >= U64_END then Fail(ERR_OVERFLOW)
    else if supply + amount > config.maxSupply then Fail(ERR_MAX_SUPPLY)
    else
      var h := WriteAmount(h, SupplyKey(h.id), supply + amount);
      var toBal :- ReadAmount(h, BalanceKey(h.id, to));
      if toBal + amount >= U64_END then Fail(ERR_OVERFLOW) else
      Done((WriteAmount(h, BalanceKey(h.id, to), toBal + amount), TokenMinted(h.id, to, amount)))
  }

  function ExecuteBurn(h: Host, config: TokenState, supply: u64, amount: u64): Outcome<(Host, ContractEvent)> {
    if amount == 0 then Fail(ERR_INVALID_AMOUNT)
    else if !config.burnEnabled then Fail(ERR_BURN_DISABLED)
    else
      var bal :- ReadAmount(h, BalanceKey(h.id, h.sender));
      if bal < amount then Fail(ERR_INSUFFICIENT)
      else if supply < amount then Fail(ERR_OVERFLOW)
      else
        var h := WriteAmount(h, SupplyKey(h.id), supply - amount);
        Done((WriteAmount(h, BalanceKey(h.id, h.sender), bal - amount), TokenBurned(h.id, h.sender, amount)))
  }

  // ---- query ----

  function Query(h: Host, input: Bytes): Outcome<QueryResult> {
    if |input| > MAX_INPUT then Fail(ERR_SERIALIZATION) else
    var tag := ReadU8(input);
    if tag.Failure? then Fail(ERR_SERIALIZATION) else
    var (t, s) := tag.value;
    if t == 0 then
      var a := ReadU64(s);
      if a.Failure? || a.value.1 != [] then Fail(ERR_SERIALIZATION) else
      var bal :- ReadAmount(h, BalanceKey(h.id, a.value.0));
      Done(Balance(bal))
    else if t == 1 && s == [] then
      var supply :- ReadAmount(h, SupplyKey(h.id));
      Done(Supply(supply))
    else if t == 2 && s == [] then
      var c :- ReadConfig(h);
      var supply :- ReadAmount(h, SupplyKey(h.id));
      Done(Info(TokenInfoView(c.name, c.symbol, c.decimals, c.maxSupply, c.mintEnabled, c.burnEnabled, c.owner, supply)))
    else Fail(ERR_SERIALIZATION)
  }

  /** The two-byte error report a guest leaves in place of an output. */
  function ErrorReport(code: byte): Bytes { [0xFF, code] }

  predicate IsErrorReport(output: Bytes) { |output| == 2 && output[0] == 0xFF }

  /** No query answer can be mistaken for an error report. */
  lemma AnswersAreNotErrors(q: QueryResult)
    ensures !IsErrorReport(EncodeResult(q))
  {
    assert EncodeResult(q)[0] != 0xFF;
  }
}
