/** The abstract token ledger, and the proof that the AUGE20 program implements it cell by cell. */
module TokenLedger {
  import opened Bytes
  import opened ContractTypes
  import opened ContractStore
  import opened WasmHost
  import opened MapSum
  import opened Auge20

  /** Amounts are unbounded here: that they always fit a cell is a theorem, not a guard. */
  datatype Ledger = Ledger(config: TokenState, supply: nat, balances: map<u64, nat>) {
    function Balance(a: u64): nat { Value(balances, a) }

    /** Conservation: the balances add up to the supply, which respects the cap. */
    ghost predicate Good() {
      && Sum(balances) == supply <= config.maxSupply
      && 0 < |config.name| <= MAX_NAME && 0 < |config.symbol| <= MAX_NAME
      && Utf8(config.name) && Utf8(config.symbol)
    }
  }

  function Move(b: map<u64, nat>, from: u64, to: u64, amount: nat): map<u64, nat>
    requires amount <= Value(b, from)
  {
    var b := b[from := Value(b, from) - amount];
    b[to := Value(b, to) + amount]
  }

  /** What a call means, errors included. */
  function Step(l: Ledger, id: Id, sender: u64, c: TokenCall): Result<(Ledger, ContractEvent), ContractError> {
    match c
    case Transfer(to, amount) =>
      if amount == 0 then Failure(InvalidAmount)
      else if l.Balance(sender) < amount then Failure(InsufficientBalance)
      else Success((l.(balances := Move(l.balances, sender, to, amount)), TokenTransferred(id, sender, to, amount)))
    case Mint(to, amount) =>
      if amount == 0 then Failure(InvalidAmount)
      else if sender != l.config.owner then Failure(Unauthorized)
      else if !l.config.mintEnabled then Failure(MintDisabled)
      else if l.supply + amount >= U64_END then Failure(ArithmeticOverflow)
      else if l.supply + amount > l.config.maxSupply then Failure(MaxSupplyExceeded)
      else
        Success((l.(supply := l.supply + amount, balances := l.balances[to := l.Balance(to) + amount]),
                 TokenMinted(id, to, amount)))
    case Burn(amount) =>
      if amount == 0 then Failure(InvalidAmount)
      else if !l.config.burnEnabled then Failure(BurnDisabled)
      else if l.Balance(sender) < amount || l.supply < amount then Failure(InsufficientBalance)
      else
        Success((l.(supply := l.supply - amount, balances := l.balances[sender := l.Balance(sender) - amount]),
                 TokenBurned(id, sender, amount)))
  }

  function Genesis(t: TokenInit, owner: u64): Ledger {
    Ledger(ConfigOf(t, owner), t.initialSupply, map[owner := t.initialSupply])
  }

  predicate Acceptable(t: TokenInit) {
    && 0 < |t.name| <= 64 && 0 < |t.symbol| <= 64
    && t.decimals <= 18 && t.initialSupply <= t.maxSupply
  }

  lemma GenesisGood(t: TokenInit, owner: u64)
    requires Acceptable(t) && Utf8(t.name) && Utf8(t.symbol)
    ensures Genesis(t, owner).Good()
  {
    var empty: map<u64, nat> := map[];
    SumUpdate(empty, owner, t.initialSupply);
  }

  /** Every accepted call conserves value, self-transfers included. */
  lemma StepGood(l: Ledger, id: Id, sender: u64, c: TokenCall)
    requires l.Good() && Step(l, id, sender, c).Success?
    ensures Step(l, id, sender, c).value.0.Good()
    ensures Step(l, id, sender, c).value.0.config == l.config
  {
    hide Utf8, Sum;
    match c
    case Transfer(to, amount) =>
      var b := l.balances[sender := l.Balance(sender) - amount];
      SumUpdate(l.balances, sender, l.Balance(sender) - amount);
      SumUpdate(b, to, Value(b, to) + amount);
    case Mint(to, amount) => SumUpdate(l.balances, to, l.Balance(to) + amount);
    case Burn(amount) => SumUpdate(l.balances, sender, l.Balance(sender) - amount);
  }

  /** A transfer moves exactly the amount, and to oneself it moves nothing. */
  lemma TransferMoves(l: Ledger, id: Id, sender: u64, to: u64, amount: u64, a: u64)
    requires Step(l, id, sender, Transfer(to, amount)).Success?
    ensures Step(l, id, sender, Transfer(to, amount)).value.0.Balance(a) ==
            l.Balance(a) - (if a == sender then amount else 0) + (if a == to then amount else 0)
  {
  }

  /** A transfer is accepted exactly for a positive amount within the sender's balance; it touches no supply and reports itself. */
  lemma TransferMeans(l: Ledger, id: Id, sender: u64, to: u64, amount: u64)
    ensures var s := Step(l, id, sender, Transfer(to, amount));
            && (amount == 0 ==> s == Failure(InvalidAmount))
            && (amount > 0 && Value(l.balances, sender) < amount ==> s == Failure(InsufficientBalance))
            && (0 < amount <= Value(l.balances, sender) ==>
                  && s.Success? && s.value.1 == TokenTransferred(id, sender, to, amount)
                  && s.value.0.supply == l.supply && s.value.0.config == l.config
                  && forall a: u64 :: Value(s.value.0.balances, a) ==
                                      Value(l.balances, a) - (if a == sender then amount else 0) + (if a == to then amount else 0))
  {
  }

  /** A mint is the owner's, while enabled and within 2^64 and the cap; it credits the recipient alone and raises the supply. */
  lemma MintMeans(l: Ledger, id: Id, sender: u64, to: u64, amount: u64)
    ensures var s := Step(l, id, sender, Mint(to, amount));
            && (amount == 0 ==> s == Failure(InvalidAmount))
            && (amount > 0 && sender != l.config.owner ==> s == Failure(Unauthorized))
            && (amount > 0 && sender == l.config.owner && !l.config.mintEnabled ==> s == Failure(MintDisabled))
            && (amount > 0 && sender == l.config.owner && l.config.mintEnabled ==>
                  && (l.supply + amount >= 0x1_0000_0000_0000_0000 ==> s == Failure(ArithmeticOverflow))
                  && (l.config.maxSupply < l.supply + amount < 0x1_0000_0000_0000_0000 ==> s == Failure(MaxSupplyExceeded))
                  && (l.supply + amount <= l.config.maxSupply ==>
                        && s.Success? && s.value.1 == TokenMinted(id, to, amount)
                        && s.value.0.supply == l.supply + amount && s.value.0.config == l.config
                        && forall a: u64 :: Value(s.value.0.balances, a) == Value(l.balances, a) + if a == to then amount else 0))
  {
  }

  /** A burn takes from the sender alone, while enabled and within the balance; it lowers the supply. */
  lemma BurnMeans(l: Ledger, id: Id, sender: u64, amount: u64)
    ensures var s := Step(l, id, sender, Burn(amount));
            && (amount == 0 ==> s == Failure(InvalidAmount))
            && (amount > 0 && !l.config.burnEnabled ==> s == Failure(BurnDisabled))
            && (amount > 0 && l.config.burnEnabled && (Value(l.balances, sender) < amount || l.supply < amount) ==> s == Failure(InsufficientBalance))
            && (0 < amount <= Value(l.balances, sender) && l.config.burnEnabled && amount <= l.supply ==>
                  && s.Success? && s.value.1 == TokenBurned(id, sender, amount)
                  && s.value.0.supply == l.supply - amount && s.value.0.config == l.config
                  && forall a: u64 :: Value(s.value.0.balances, a) == Value(l.balances, a) - if a == sender then amount else 0)
  {
  }

  /** A new token has its parameters, its creator as owner, and the whole initial supply with them. */
  lemma GenesisMeans(t: TokenInit, owner: u64)
    ensures var l := Genesis(t, owner);
            && l.supply == t.initialSupply && (forall a: u64 :: Value(l.balances, a) == if a == owner then t.initialSupply else 0)
            && l.config.owner == owner && l.config.maxSupply == t.maxSupply && l.config.decimals == t.decimals
            && l.config.name == t.name && l.config.symbol == t.symbol
            && l.config.mintEnabled == t.mintEnabled && l.config.burnEnabled == t.burnEnabled
  {
  }

  // ---- The cells that hold a ledger ----

  ghost predicate Represents(view: Store, id: Id, l: Ledger) {
    && Lookup(view, TokenKey(id)) == Some(EncodeState(l.config))
    && l.supply < U64_END && Lookup(view, SupplyKey(id)) == Some(U64(l.supply))
    && (forall a: u64 :: BalanceCell(view, id, a, l.balances))
  }

  ghost predicate BalanceCell(view: Store, id: Id, a: u64, b: map<u64, nat>) {
    && (a in b ==> b[a] < U64_END && Lookup(view, BalanceKey(id, a)) == Some(U64(b[a])))
    && (a !in b ==> BalanceKey(id, a) !in view)
  }

  /** The cells determine the ledger. */
  lemma RepresentsOne(view: Store, id: Id, l: Ledger, m: Ledger)
    requires Represents(view, id, l) && Represents(view, id, m)
    requires l.Good() && m.Good()
    ensures l == m
  {
    StateRoundTrip(l.config);
    StateRoundTrip(m.config);
    U64Injective(l.supply, m.supply);
    forall a: u64
      ensures a in l.balances <==> a in m.balances
      ensures a in l.balances ==> l.balances[a] == m.balances[a]
    {
      assert BalanceCell(view, id, a, l.balances) && BalanceCell(view, id, a, m.balances);
      if a in l.balances && a in m.balances {
        U64Injective(l.balances[a], m.balances[a]);
      }
    }
    assert l.balances.Keys == m.balances.Keys;
  }

  lemma BalanceFits(l: Ledger, a: u64)
    requires l.Good()
    ensures l.Balance(a) <= l.supply <= l.config.maxSupply < U64_END
  {
    ValueBounded(l.balances, a);
  }

  lemma ReadBalance(h: Host, l: Ledger, a: u64)
    requires h.Valid() && Represents(h.View(), h.id, l)
    ensures ReadAmount(h, BalanceKey(h.id, a)) == Done(l.Balance(a))
  {
    assert BalanceCell(h.View(), h.id, a, l.balances);
    ReadIsView(h, BalanceKey(h.id, a));
    if a in l.balances {
      U64RoundTrip(l.balances[a]);
    }
  }

  lemma ReadSupply(h: Host, l: Ledger)
    requires h.Valid() && Represents(h.View(), h.id, l)
    ensures ReadAmount(h, SupplyKey(h.id)) == Done(l.supply)
  {
    ReadIsView(h, SupplyKey(h.id));
    U64RoundTrip(l.supply);
  }

  lemma ReadLedgerConfig(h: Host, l: Ledger)
    requires h.Valid() && Represents(h.View(), h.id, l) && |l.config.name| <= MAX_NAME && |l.config.symbol| <= MAX_NAME
    ensures ReadConfig(h) == Done(l.config)
  {
    ReadIsView(h, TokenKey(h.id));
    StateRoundTrip(l.config);
  }

  /** Enough budget is left for a few more small cells. */
  ghost predicate Roomy(h: Host, calls: nat) {
    Charged(h) && h.count + calls <= MAX_MUTATIONS && h.bytes + calls * 256 <= MAX_LOG_BYTES && !h.exceeded
  }

  /** `g` is `h` after one more small cell write. */
  ghost predicate Next(h: Host, g: Host) {
    && g.Valid() && Charged(g) && g.count == h.count + 1 && g.bytes <= h.bytes + 256 && !g.exceeded
    && g.base == h.base && g.id == h.id && g.sender == h.sender
  }

  lemma WriteBalance(h: Host, l: Ledger, a: u64, v: u64)
    requires h.Valid() && Roomy(h, 1) && Represents(h.View(), h.id, l)
    ensures var g := WriteAmount(h, BalanceKey(h.id, a), v);
            && Next(h, g)
            && Represents(g.View(), g.id, l.(balances := l.balances[a := v]))
  {
    var g := WriteAmount(h, BalanceKey(h.id, a), v);
    StepPatches(h, Put(BalanceKey(h.id, a), U64(v)));
    StepCharged(h, Put(BalanceKey(h.id, a), U64(v)));
    CellsApart(h.id, a, a);
    var m := l.balances[a := v];
    forall b: u64
      ensures BalanceCell(g.View(), g.id, b, m)
    {
      CellsApart(h.id, a, b);
      assert BalanceCell(h.View(), h.id, b, l.balances);
    }
  }

  lemma WriteSupply(h: Host, l: Ledger, v: u64)
    requires h.Valid() && Roomy(h, 1) && Represents(h.View(), h.id, l)
    ensures var g := WriteAmount(h, SupplyKey(h.id), v);
            && Next(h, g)
            && Represents(g.View(), g.id, l.(supply := v))
  {
    var g := WriteAmount(h, SupplyKey(h.id), v);
    StepPatches(h, Put(SupplyKey(h.id), U64(v)));
    StepCharged(h, Put(SupplyKey(h.id), U64(v)));
    forall b: u64
      ensures BalanceCell(g.View(), g.id, b, l.balances)
    {
      CellsApart(h.id, b, b);
      assert BalanceCell(h.View(), h.id, b, l.balances);
    }
    CellsApart(h.id, 0, 0);
  }

  /** How the engine reads a guest error code. */
  function MapError(code: byte): ContractError {
    match code
    case 1 => InvalidAmount
    case 2 => InsufficientBalance
    case 3 => Unauthorized
    case 4 => MintDisabled
    case 5 => BurnDisabled
    case 6 => MaxSupplyExceeded
    case 7 => ArithmeticOverflow
    case _ => InvalidData
  }

  ghost predicate Implements(r: Outcome<(Host, ContractEvent)>, h: Host, s: Result<(Ledger, ContractEvent), ContractError>) {
    match s
    case Failure(e) => r.Fail? && MapError(r.code) == e
    case Success((l, ev)) =>
      && r.Done? && r.value.1 == ev
      && r.value.0.Valid() && r.value.0.id == h.id && r.value.0.base == h.base
      && !r.value.0.exceeded && Charged(r.value.0) && r.value.0.bytes <= MAX_LOG_BYTES
      && Represents(r.value.0.View(), h.id, l)
  }

  lemma TransferImplements(h: Host, l: Ledger, to: u64, amount: u64)
    requires h.Valid() && Roomy(h, 2) && Represents(h.View(), h.id, l) && l.Good()
    ensures Implements(ExecuteTransfer(h, to, amount), h, Step(l, h.id, h.sender, Transfer(to, amount)))
  {
    hide ReadAmount, WriteAmount, BalanceKey, Represents, Utf8;
    ReadBalance(h, l, h.sender);
    if amount != 0 && l.Balance(h.sender) >= amount {
      var rest := l.Balance(h.sender) - amount;
      BalanceFits(l, h.sender);
      WriteBalance(h, l, h.sender, rest);
      var g, m := WriteAmount(h, BalanceKey(h.id, h.sender), rest), l.(balances := l.balances[h.sender := rest]);
      ReadBalance(g, m, to);
      StepGood(l, h.id, h.sender, Transfer(to, amount));
      BalanceFits(Step(l, h.id, h.sender, Transfer(to, amount)).value.0, to);
      WriteBalance(g, m, to, m.Balance(to) + amount);
    }
  }

  /** On a conserving ledger no refusal comes late: a transfer or a mint that passes its checks goes through, so every
      refusal leaves the cells as they were. */
  lemma RefusalsComeFirst(h: Host, l: Ledger, to: u64, amount: u64)
    requires h.Valid() && Roomy(h, 2) && Represents(h.View(), h.id, l) && l.Good()
    ensures ExecuteTransfer(h, to, amount).Done? <==> TransferGuard(h, amount)
    ensures ExecuteMint(h, l.config, l.supply, to, amount).Done? <==> MintGuard(h, l.config, l.supply, amount)
  {
    hide ReadAmount, WriteAmount, ExecuteTransfer, ExecuteMint, Represents, Ledger.Good, BalanceKey, SupplyKey;
    ReadBalance(h, l, h.sender);
    TransferImplements(h, l, to, amount);
    MintImplements(h, l, to, amount);
  }

  lemma MintImplements(h: Host, l: Ledger, to: u64, amount: u64)
    requires h.Valid() && Roomy(h, 2) && Represents(h.View(), h.id, l) && l.Good()
    ensures Implements(ExecuteMint(h, l.config, l.supply, to, amount), h, Step(l, h.id, h.sender, Mint(to, amount)))
  {
    hide ReadAmount, WriteAmount, BalanceKey, SupplyKey, Represents, Utf8;
    if Step(l, h.id, h.sender, Mint(to, amount)).Success? {
      WriteSupply(h, l, l.supply + amount);
      var g, m := WriteAmount(h, SupplyKey(h.id), l.supply + amount), l.(supply := l.supply + amount);
      ReadBalance(g, m, to);
      StepGood(l, h.id, h.sender, Mint(to, amount));
      BalanceFits(Step(l, h.id, h.sender, Mint(to, amount)).value.0, to);
      WriteBalance(g, m, to, m.Balance(to) + amount);
    }
  }

  lemma BurnImplements(h: Host, l: Ledger, amount: u64)
    requires h.Valid() && Roomy(h, 2) && Represents(h.View(), h.id, l) && l.Good()
    ensures Implements(ExecuteBurn(h, l.config, l.supply, amount), h, Step(l, h.id, h.sender, Burn(amount)))
  {
    hide ReadAmount, WriteAmount, BalanceKey, SupplyKey, Represents, Utf8;
    ReadBalance(h, l, h.sender);
    BalanceFits(l, h.sender);
    if Step(l, h.id, h.sender, Burn(amount)).Success? {
      WriteSupply(h, l, l.supply - amount);
      var g, m := WriteAmount(h, SupplyKey(h.id), l.supply - amount), l.(supply := l.supply - amount);
      WriteBalance(g, m, h.sender, l.Balance(h.sender) - amount);
    }
  }

  /** The program run on the cells of a conserving ledger does exactly what the ledger does. */
  lemma ExecuteImplements(h: Host, l: Ledger, input: Bytes, c: TokenCall)
    requires h.Valid() && Roomy(h, 2) && Represents(h.View(), h.id, l) && l.Good()
    requires DecodeCall(input) == Success(c)
    ensures Implements(Execute(h, input), h, Step(l, h.id, h.sender, c))
  {
    ReadLedgerConfig(h, l);
    ReadSupply(h, l);
    CallLength(input);
    match c
    case Transfer(to, amount) => TransferImplements(h, l, to, amount);
    case Mint(to, amount) => MintImplements(h, l, to, amount);
    case Burn(amount) => BurnImplements(h, l, amount);
  }

  lemma CallLength(input: Bytes)
    requires DecodeCall(input).Success?
    ensures |input| <= 17 && ReadU8(input).Success?
  {
  }

  // ---- Creating a token ----

  lemma GuestInit(input: Bytes, t: TokenInit)
    requires DecodeInit(input) == Success(t)
    ensures ParseGuestInit(input) ==
            if |t.name| > MAX_NAME || |t.symbol| > MAX_NAME then Failure(InvalidSerialization) else Success(t)
    ensures |input| == 27 + |t.name| + |t.symbol|
  {
  }

  /** No cell of the token is there yet. */
  ghost predicate NoCells(view: Store, id: Id) { forall x | IsCell(id, x) :: x !in view }

  /** Configuration and supply written where no cell was hold a ledger without accounts. */
  lemma FirstCells(h: Host, c: TokenState, supply: u64)
    requires h.Valid() && Roomy(h, 2) && NoCells(h.View(), h.id)
    requires |c.name| <= MAX_NAME && |c.symbol| <= MAX_NAME
    ensures var g := h.Step(Put(TokenKey(h.id), EncodeState(c)));
            var k := WriteAmount(g, SupplyKey(h.id), supply);
            Next(h, g) && Next(g, k) && Represents(k.View(), h.id, Ledger(c, supply, map[]))
  {
    hide EncodeState, U64, NoCells;
    var w := Put(TokenKey(h.id), EncodeState(c));
    StateRoundTrip(c);
    StepPatches(h, w);
    StepCharged(h, w);
    var g, x := h.Step(w), Put(SupplyKey(h.id), U64(supply));
    StepPatches(g, x);
    StepCharged(g, x);
    assert g.Step(x).View() == h.View()[TokenKey(h.id) := EncodeState(c)][SupplyKey(h.id) := U64(supply)];
    TwoCells(h.View(), h.id, c, supply);
  }

  lemma TwoCells(view: Store, id: Id, c: TokenState, supply: u64)
    requires NoCells(view, id)
    ensures Represents(view[TokenKey(id) := EncodeState(c)][SupplyKey(id) := U64(supply)], id, Ledger(c, supply, map[]))
  {
    hide EncodeState, U64, TokenKey, SupplyKey, BalanceKey;
    var k, none: map<u64, nat> := view[TokenKey(id) := EncodeState(c)][SupplyKey(id) := U64(supply)], map[];
    forall a: u64
      ensures BalanceCell(k, id, a, none)
    {
      CellsApart(id, a, a);
      assert IsCell(id, BalanceKey(id, a));
    }
    CellsApart(id, 0, 0);
  }

  lemma InstantiateImplements(h: Host, input: Bytes, t: TokenInit)
    requires h.Valid() && Roomy(h, 3) && NoCells(h.View(), h.id)
    requires DecodeInit(input) == Success(t)
    requires t.name != [] && t.symbol != [] && t.decimals <= 18 && t.initialSupply <= t.maxSupply
    ensures !Acceptable(t) ==> Instantiate(h, input) == Fail(ERR_SERIALIZATION)
    ensures Acceptable(t) ==>
              && Instantiate(h, input).Done?
              && var g := Instantiate(h, input).value;
                 && g.Valid() && g.id == h.id && g.base == h.base && !g.exceeded && Charged(g) && g.bytes <= MAX_LOG_BYTES
                 && Represents(g.View(), h.id, Genesis(t, h.sender))
  {
    hide DecodeInit, ParseGuestInit, WriteAmount, Represents, EncodeState, TokenKey, SupplyKey, BalanceKey;
    GuestInit(input, t);
    if Acceptable(t) {
      var c := ConfigOf(t, h.sender);
      FirstCells(h, c, t.initialSupply);
      var k := WriteAmount(h.Step(Put(TokenKey(h.id), EncodeState(c))), SupplyKey(h.id), t.initialSupply);
      var l := Ledger(c, t.initialSupply, map[]);
      WriteBalance(k, l, h.sender, t.initialSupply);
      assert l.(balances := l.balances[h.sender := t.initialSupply]) == Genesis(t, h.sender);
    }
  }

  // ---- Reading answers ----

  function Answer(l: Ledger, q: TokenQuery): QueryResult
    requires l.supply < U64_END && forall a | a in l.balances :: l.balances[a] < U64_END
  {
    match q
    case BalanceOf(a) => QueryResult.Balance(l.Balance(a))
    case TotalSupply => Supply(l.supply)
    case TokenInfo =>
      var c := l.config;
      Info(TokenInfoView(c.name, c.symbol, c.decimals, c.maxSupply, c.mintEnabled, c.burnEnabled, c.owner, l.supply))
  }

  /** The answers, field by field. */
  lemma AnswerMeans(l: Ledger, q: TokenQuery)
    requires l.supply < U64_END && forall a | a in l.balances :: l.balances[a] < U64_END
    ensures q.BalanceOf? ==> Answer(l, q) == QueryResult.Balance(Value(l.balances, q.addr))
    ensures q.TotalSupply? ==> Answer(l, q) == Supply(l.supply)
    ensures q.TokenInfo? ==>
              && Answer(l, q).Info?
              && var v := Answer(l, q).view;
                 && v.name == l.config.name && v.symbol == l.config.symbol && v.decimals == l.config.decimals && v.maxSupply == l.config.maxSupply
                 && v.mintEnabled == l.config.mintEnabled && v.burnEnabled == l.config.burnEnabled && v.owner == l.config.owner
                 && v.totalSupply == l.supply
  {
  }

  lemma BalancesFit(view: Store, id: Id, l: Ledger)
    requires Represents(view, id, l)
    ensures forall a | a in l.balances :: l.balances[a] < U64_END
  {
    forall a: u64 | a in l.balances
      ensures l.balances[a] < U64_END
    {
      assert BalanceCell(view, id, a, l.balances);
    }
  }

  /** A query returns the ledger's answer, and the transport decoder takes it back unchanged. */
  lemma QueryAnswers(h: Host, l: Ledger, q: TokenQuery)
    requires h.Valid() && Represents(h.View(), h.id, l) && l.Good()
    ensures forall a | a in l.balances :: l.balances[a] < U64_END
    ensures Query(h, EncodeQuery(q)) == Done(Answer(l, q))
    ensures DecodeResult(EncodeResult(Answer(l, q))) == Success(Answer(l, q))
  {
    hide ReadU8, ReadU64, ReadAmount, ReadConfig, U64, BalanceKey, SupplyKey, Represents, Utf8, DecodeResult, EncodeResult;
    BalancesFit(h.View(), h.id, l);
    ReadLedgerConfig(h, l);
    ReadSupply(h, l);
    if q.BalanceOf? {
      ReadBalance(h, l, q.addr);
    }
    Reads();
    ResultRoundTrip(Answer(l, q));
  }
}
