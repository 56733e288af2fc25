/** Entities of the contract subsystem and their wire formats (u32 length prefixes, big-endian). */
module ContractTypes {
  import opened Bytes

  const HASH_LEN := 32
  type Id = s: Bytes | |s| == HASH_LEN witness seq(HASH_LEN, _ => 0)

  const AUGE20_CODE_ID: u64 := 1

  datatype ContractError =
    | InvalidData
    | InvalidWasm
    | WasmTooLarge
    | StorageLimitExceeded
    | OutOfGas
    | ContractNotFound
    | CodeNotFound
    | Unauthorized
    | InsufficientBalance
    | MaxSupplyExceeded
    | InvalidAmount
    | ArithmeticOverflow
    | MintDisabled
    | BurnDisabled
    | DuplicateContract
    | ExecutionFailed

  datatype TokenInit = TokenInit(
    name: Bytes, symbol: Bytes, decimals: byte,
    initialSupply: u64, maxSupply: u64, mintEnabled: bool, burnEnabled: bool)

  datatype TokenCall =
    | Transfer(to: u64, amount: u64)
    | Mint(to: u64, amount: u64)
    | Burn(amount: u64)

  datatype TokenQuery = BalanceOf(addr: u64) | TotalSupply | TokenInfo

  datatype ContractEvent =
    | CodeStored(codeId: u64, codeHash: Id)
    | ContractCreated(contractId: Id, owner: u64, codeId: u64)
    | TokenTransferred(contractId: Id, from: u64, to: u64, amount: u64)
    | TokenMinted(contractId: Id, to: u64, amount: u64)
    | TokenBurned(contractId: Id, from: u64, amount: u64)

  /** Token configuration cell of the WASM token (the owner is part of it). */
  datatype TokenState = TokenState(
    decimals: byte, mintEnabled: bool, burnEnabled: bool,
    maxSupply: u64, owner: u64, name: Bytes, symbol: Bytes)

  /** Token configuration record of the native token (the owner lives in the contract metadata). */
  datatype TokenConfig = TokenConfig(
    name: Bytes, symbol: Bytes, decimals: byte,
    maxSupply: u64, mintEnabled: bool, burnEnabled: bool)

  datatype TokenInfoView = TokenInfoView(
    name: Bytes, symbol: Bytes, decimals: byte, maxSupply: u64,
    mintEnabled: bool, burnEnabled: bool, owner: u64, totalSupply: u64)

  datatype QueryResult = Balance(amount: u64) | Supply(amount: u64) | Info(view: TokenInfoView)

  datatype ContractMeta = ContractMeta(
    contractId: Id, owner: u64, codeId: u64, isAuge20: bool, storageUsed: u64, createdHeight: u64)

  datatype CodeRecord = CodeRecord(codeId: u64, codeHash: Id, wasm: Bytes)

  // ---- Length-prefixed fields ----

  predicate Short(s: Bytes) { |s| < 0x1_0000_0000 }

  function Fixed(s: Id): Bytes { s }

  /** The length is cast to `u32`, so a field of 2^32 bytes or more gets a truncated prefix. */
  function Bytes32(s: Bytes): Bytes {
    U32(|s| % 0x1_0000_0000) + s
  }

  function ReadBytes32(s: Bytes): (r: Parsed<Bytes>)
    ensures r.Success? ==> Short(r.value.0) && |s| == 4 + |r.value.0| + |r.value.1|
  {
    var (n, s1) :- ReadU32(s);
    ReadFixed(s1, n)
  }

  function ReadString32(s: Bytes): (r: Parsed<Bytes>)
    ensures r.Success? ==> Short(r.value.0) && Utf8(r.value.0) && |s| == 4 + |r.value.0| + |r.value.1|
  {
    var (b, rest) :- ReadBytes32(s);
    if Utf8(b) then Success((b, rest)) else Failure(InvalidSerialization)
  }

  function ReadId(s: Bytes): (r: Parsed<Id>)
    ensures r.Success? ==> |s| == HASH_LEN + |r.value.1|
  {
    var (b, rest) :- ReadFixed(s, HASH_LEN);
    Success((b, rest))
  }

  lemma Bytes32Read(b: Bytes, r: Bytes)
    requires Short(b)
    ensures ReadBytes32(Bytes32(b) + r) == Success((b, r))
  {
    hide ReadU32, U32;
    assert (U32(|b|) + b) + r == U32(|b|) + (b + r);
    Reads();
    Front(b, r);
  }

  lemma Fields()
    ensures forall b: Bytes, r: Bytes {:trigger Bytes32(b) + r} :: Short(b) ==>
              && ReadBytes32(Bytes32(b) + r) == Success((b, r))
              && (Utf8(b) ==> ReadString32(Bytes32(b) + r) == Success((b, r)))
    ensures forall b: Id, r: Bytes {:trigger Fixed(b) + r} :: ReadId(Fixed(b) + r) == Success((b, r))
  {
    hide ReadBytes32, Bytes32, Utf8, ReadFixed;
    forall b: Bytes, r: Bytes | Short(b)
      ensures ReadBytes32(Bytes32(b) + r) == Success((b, r))
    {
      Bytes32Read(b, r);
    }
    forall b: Id, r: Bytes
      ensures ReadId(Fixed(b) + r) == Success((b, r))
    {
      Front(b, r);
    }
  }

  /** A whole-buffer decoder: the parser must leave nothing behind. */
  function Finish<T>(r: Parsed<T>): Result<T, DecodeError> {
    if r.Success? && r.value.1 != [] then Failure(InvalidSerialization)
    else if r.Success? then Success(r.value.0)
    else Failure(r.error)
  }

  // ---- TokenInit ----

  function PutInit(t: TokenInit, r: Bytes): Bytes {
    [t.decimals] + (Bool(t.mintEnabled) + (Bool(t.burnEnabled) + (U64(t.initialSupply) + (U64(t.maxSupply)
      + (Bytes32(t.name) + (Bytes32(t.symbol) + r))))))
  }

  function EncodeInit(t: TokenInit): Bytes { PutInit(t, []) }

  function ParseInit(s: Bytes): (r: Parsed<TokenInit>)
    ensures r.Success? ==>
              && Short(r.value.0.name) && Utf8(r.value.0.name) && Short(r.value.0.symbol) && Utf8(r.value.0.symbol)
              && |s| == 27 + |r.value.0.name| + |r.value.0.symbol| + |r.value.1|
  {
    var (decimals, s) :- ReadU8(s);
    var (mint, s) :- ReadBool(s);
    var (burn, s) :- ReadBool(s);
    var (initial, s) :- ReadU64(s);
    var (max, s) :- ReadU64(s);
    var (name, s) :- ReadString32(s);
    var (symbol, s) :- ReadString32(s);
    Success((TokenInit(name, symbol, decimals, initial, max, mint, burn), s))
  }

  function DecodeInit(d: Bytes): Result<TokenInit, DecodeError> { Finish(ParseInit(d)) }

  lemma InitRoundTrip(t: TokenInit)
    requires Short(t.name) && Utf8(t.name) && Short(t.symbol) && Utf8(t.symbol)
    ensures DecodeInit(EncodeInit(t)) == Success(t)
  {
    hide ReadU8, ReadBool, ReadU64, ReadString32, U64, Bool, Bytes32, Utf8;
    Reads();
    Fields();
  }

  // ---- TokenCall ----

  function PutCall(c: TokenCall, r: Bytes): Bytes {
    match c
    case Transfer(to, amount) => [0] + (U64(to) + (U64(amount) + r))
    case Mint(to, amount) => [1] + (U64(to) + (U64(amount) + r))
    case Burn(amount) => [2] + (U64(amount) + r)
  }

  function EncodeCall(c: TokenCall): Bytes { PutCall(c, []) }

  function ParseCall(s: Bytes): Parsed<TokenCall> {
    var (t, s) :- ReadU8(s);
    if t == 0 then
      var (to, s) :- ReadU64(s);
      var (amount, s) :- ReadU64(s);
      Success((Transfer(to, amount), s))
    else if t == 1 then
      var (to, s) :- ReadU64(s);
      var (amount, s) :- ReadU64(s);
      Success((Mint(to, amount), s))
    else if t == 2 then
      var (amount, s) :- ReadU64(s);
      Success((Burn(amount), s))
    else Failure(InvalidSerialization)
  }

  function DecodeCall(d: Bytes): Result<TokenCall, DecodeError> { Finish(ParseCall(d)) }

  /** Whatever decodes as a call is that call's encoding, byte for byte. */
  lemma CallCanonical(d: Bytes)
    requires DecodeCall(d).Success?
    ensures d == EncodeCall(DecodeCall(d).value)
  {
    hide U64;
    var tag, rest := d[0], d[1..];
    assert d == [tag] + rest;
    U64Front(rest);
    if tag != 2 {
      U64Front(rest[8..]);
      assert rest == rest[..8] + (rest[8..16] + rest[16..]);
    }
  }

  lemma U64Front(s: Bytes)
    ensures ReadU64(s).Success? ==> |s| >= 8 && U64(ReadU64(s).value.0) == s[..8] && ReadU64(s).value.1 == s[8..] && s == s[..8] + s[8..]
  {
  }

  lemma CallRoundTrip(c: TokenCall)
    ensures DecodeCall(EncodeCall(c)) == Success(c)
  {
    hide ReadU8, ReadU32, ReadU64, ReadBool, ReadBytes32, ReadString32, ReadId, U32, U64, Bool, Fixed, Bytes32, Utf8;
    Reads();
    Fields();
  }

  // ---- TokenQuery ----

  function PutQuery(q: TokenQuery, r: Bytes): Bytes {
    match q
    case BalanceOf(a) => [0] + (U64(a) + r)
    case TotalSupply => [1] + r
    case TokenInfo => [2] + r
  }

  function EncodeQuery(q: TokenQuery): Bytes { PutQuery(q, []) }

  // ---- ContractEvent ----

  function PutEvent(e: ContractEvent, r: Bytes): Bytes {
    match e
    case CodeStored(codeId, codeHash) => [0] + (U64(codeId) + (Fixed(codeHash) + r))
    case ContractCreated(id, owner, codeId) => [1] + (Fixed(id) + (U64(owner) + (U64(codeId) + r)))
    case TokenTransferred(id, from, to, amount) => [2] + (Fixed(id) + (U64(from) + (U64(to) + (U64(amount) + r))))
    case TokenMinted(id, to, amount) => [3] + (Fixed(id) + (U64(to) + (U64(amount) + r)))
    case TokenBurned(id, from, amount) => [4] + (Fixed(id) + (U64(from) + (U64(amount) + r)))
  }

  function EncodeEvent(e: ContractEvent): Bytes { PutEvent(e, []) }

  function ParseEvent(s: Bytes): Parsed<ContractEvent> {
    var (t, s) :- ReadU8(s);
    if t == 0 then
      var (codeId, s) :- ReadU64(s);
      var (hash, s) :- ReadId(s);
      Success((CodeStored(codeId, hash), s))
    else if t == 1 then
      var (id, s) :- ReadId(s);
      var (owner, s) :- ReadU64(s);
      var (codeId, s) :- ReadU64(s);
      Success((ContractCreated(id, owner, codeId), s))
    else if t == 2 then
      var (id, s) :- ReadId(s);
      var (from, s) :- ReadU64(s);
      var (to, s) :- ReadU64(s);
      var (amount, s) :- ReadU64(s);
      Success((TokenTransferred(id, from, to, amount), s))
    else if t == 3 then
      var (id, s) :- ReadId(s);
      var (to, s) :- ReadU64(s);
      var (amount, s) :- ReadU64(s);
      Success((TokenMinted(id, to, amount), s))
    else if t == 4 then
      var (id, s) :- ReadId(s);
      var (from, s) :- ReadU64(s);
      var (amount, s) :- ReadU64(s);
      Success((TokenBurned(id, from, amount), s))
    else Failure(InvalidSerialization)
  }

  function DecodeEvent(d: Bytes): Result<ContractEvent, DecodeError> { Finish(ParseEvent(d)) }

  lemma EventRoundTrip(e: ContractEvent)
    ensures DecodeEvent(EncodeEvent(e)) == Success(e)
  {
    hide ReadU8, ReadU32, ReadU64, ReadBool, ReadBytes32, ReadString32, ReadId, U32, U64, Bool, Fixed, Bytes32, Utf8;
    Reads();
    Fields();
  }

  // ---- TokenState (the contract's own configuration cell) ----

  function PutState(t: TokenState, r: Bytes): Bytes {
    [t.decimals] + (Bool(t.mintEnabled) + (Bool(t.burnEnabled) + (U64(t.maxSupply) + (U64(t.owner)
      + (Bytes32(t.name) + (Bytes32(t.symbol) + r))))))
  }

  function EncodeState(t: TokenState): Bytes { PutState(t, []) }

  function ParseState(s: Bytes): Parsed<TokenState> {
    var (decimals, s) :- ReadU8(s);
    var (mint, s) :- ReadBool(s);
    var (burn, s) :- ReadBool(s);
    var (max, s) :- ReadU64(s);
    var (owner, s) :- ReadU64(s);
    var (name, s) :- ReadBytes32(s);
    if |name| > 64 then Failure(InvalidSerialization) else
    var (symbol, s) :- ReadBytes32(s);
    if |symbol| > 64 then Failure(InvalidSerialization) else
    Success((TokenState(decimals, mint, burn, max, owner, name, symbol), s))
  }

  function DecodeState(d: Bytes): Result<TokenState, DecodeError> { Finish(ParseState(d)) }

  lemma StateRoundTrip(t: TokenState)
    requires |t.name| <= 64 && |t.symbol| <= 64
    ensures DecodeState(EncodeState(t)) == Success(t)
    ensures |EncodeState(t)| == 27 + |t.name| + |t.symbol|
  {
    hide ReadU8, ReadU32, ReadU64, ReadBool, ReadBytes32, ReadString32, ReadId, U32, U64, Bool, Fixed, Bytes32, Utf8;
    Reads();
    Fields();
  }

  // ---- TokenConfig ----

  function PutConfig(t: TokenConfig, r: Bytes): Bytes {
    [t.decimals] + (Bool(t.mintEnabled) + (Bool(t.burnEnabled) + (U64(t.maxSupply)
      + (Bytes32(t.name) + (Bytes32(t.symbol) + r)))))
  }

  function EncodeConfig(t: TokenConfig): Bytes { PutConfig(t, []) }

  function ParseConfig(s: Bytes): Parsed<TokenConfig> {
    var (decimals, s) :- ReadU8(s);
    var (mint, s) :- ReadBool(s);
    var (burn, s) :- ReadBool(s);
    var (max, s) :- ReadU64(s);
    var (name, s) :- ReadString32(s);
    var (symbol, s) :- ReadString32(s);
    Success((TokenConfig(name, symbol, decimals, max, mint, burn), s))
  }

  function DecodeConfig(d: Bytes): Result<TokenConfig, DecodeError> { Finish(ParseConfig(d)) }

  lemma ConfigRoundTrip(t: TokenConfig)
    requires Short(t.name) && Utf8(t.name) && Short(t.symbol) && Utf8(t.symbol)
    ensures DecodeConfig(EncodeConfig(t)) == Success(t)
  {
    hide ReadU8, ReadU32, ReadU64, ReadBool, ReadBytes32, ReadString32, ReadId, U32, U64, Bool, Fixed, Bytes32, Utf8;
    Reads();
    Fields();
  }

  // ---- QueryResult ----

  function PutResult(q: QueryResult, r: Bytes): Bytes {
    match q
    case Balance(v) => [0] + (U64(v) + r)
    case Supply(v) => [1] + (U64(v) + r)
    case Info(v) =>
      [2] + (Bytes32(v.name) + (Bytes32(v.symbol) + ([v.decimals] + (U64(v.maxSupply) + (Bool(v.mintEnabled)
        + (Bool(v.burnEnabled) + (U64(v.owner) + (U64(v.totalSupply) + r))))))))
  }

  function EncodeResult(q: QueryResult): Bytes { PutResult(q, []) }

  function ParseResult(s: Bytes): Parsed<QueryResult> {
    var (t, s) :- ReadU8(s);
    if t == 0 then
      var (v, s) :- ReadU64(s);
      Success((Balance(v), s))
    else if t == 1 then
      var (v, s) :- ReadU64(s);
      Success((Supply(v), s))
    else if t == 2 then
      var (name, s) :- ReadString32(s);
      var (symbol, s) :- ReadString32(s);
      var (decimals, s) :- ReadU8(s);
      var (max, s) :- ReadU64(s);
      var (mint, s) :- ReadBool(s);
      var (burn, s) :- ReadBool(s);
      var (owner, s) :- ReadU64(s);
      var (total, s) :- ReadU64(s);
      Success((Info(TokenInfoView(name, symbol, decimals, max, mint, burn, owner, total)), s))
    else Failure(InvalidSerialization)
  }

  function DecodeResult(d: Bytes): Result<QueryResult, DecodeError> { Finish(ParseResult(d)) }

  predicate Printable(q: QueryResult) {
    q.Info? ==> Short(q.view.name) && Utf8(q.view.name) && Short(q.view.symbol) && Utf8(q.view.symbol)
  }

  lemma ResultRoundTrip(q: QueryResult)
    requires Printable(q)
    ensures DecodeResult(EncodeResult(q)) == Success(q)
  {
    hide ReadU8, ReadU32, ReadU64, ReadBool, ReadBytes32, ReadString32, ReadId, U32, U64, Bool, Fixed, Bytes32, Utf8;
    Reads();
    Fields();
  }

  // ---- ContractMeta ----

  function PutMeta(m: ContractMeta, r: Bytes): Bytes {
    Fixed(m.contractId) + (U64(m.owner) + (U64(m.codeId) + (Bool(m.isAuge20) + (U64(m.storageUsed) + (U64(m.createdHeight) + r)))))
  }

  function EncodeMeta(m: ContractMeta): Bytes { PutMeta(m, []) }

  function ParseMeta(s: Bytes): Parsed<ContractMeta> {
    var (id, s) :- ReadId(s);
    var (owner, s) :- ReadU64(s);
    var (codeId, s) :- ReadU64(s);
    var (native, s) :- ReadBool(s);
    var (used, s) :- ReadU64(s);
    var (height, s) :- ReadU64(s);
    Success((ContractMeta(id, owner, codeId, native, used, height), s))
  }

  function DecodeMeta(d: Bytes): Result<ContractMeta, DecodeError> { Finish(ParseMeta(d)) }

  lemma MetaRoundTrip(m: ContractMeta)
    ensures DecodeMeta(EncodeMeta(m)) == Success(m)
  {
    hide ReadU8, ReadU32, ReadU64, ReadBool, ReadBytes32, ReadString32, ReadId, U32, U64, Bool, Fixed, Bytes32, Utf8;
    Reads();
    Fields();
  }

  // ---- CodeRecord ----

  function PutCode(c: CodeRecord, r: Bytes): Bytes {
    U64(c.codeId) + (Fixed(c.codeHash) + (Bytes32(c.wasm) + r))
  }

  function EncodeCode(c: CodeRecord): Bytes { PutCode(c, []) }

  function ParseCode(s: Bytes): Parsed<CodeRecord> {
    var (codeId, s) :- ReadU64(s);
    var (hash, s) :- ReadId(s);
    var (wasm, s) :- ReadBytes32(s);
    Success((CodeRecord(codeId, hash, wasm), s))
  }

  function DecodeCode(d: Bytes): Result<CodeRecord, DecodeError> { Finish(ParseCode(d)) }

  lemma CodeRoundTrip(c: CodeRecord)
    requires Short(c.wasm)
    ensures DecodeCode(EncodeCode(c)) == Success(c)
  {
    hide ReadU8, ReadU32, ReadU64, ReadBool, ReadBytes32, ReadString32, ReadId, U32, U64, Bool, Fixed, Bytes32, Utf8;
    Reads();
    Fields();
  }
}
