/**
  Whole runs of the engine over one store: any interleaving of token calls, stored code and code
  uploads, accepted or not. The tokens in the store always form the abstract ledgers.
 */
module World {
  import opened Bytes
  import opened Hashing
  import opened ContractTypes
  import opened ContractStore
  import opened WasmHost
  import opened MapSum
  import opened Auge20
  import opened TokenLedger
  import opened NativeToken
  import opened Engine

  type Tokens = map<Id, Ledger>

  datatype Call =
    | Upload(wasm: Bytes, valid: bool, gas: u64)
    | Create(sender: u64, codeId: u64, data: Bytes, height: u64, gas: u64, guest: Guest, fuel: Fuel)
    | Invoke(sender: u64, id: Id, data: Bytes, height: u64, gas: u64, guest: Guest, fuel: Fuel)

  ghost function Perform(H: Digest, lim: Limits, store: Store, c: Call): Result<ApplyOutcome, ContractError> {
    match c
    case Upload(wasm, valid, gas) =>
      var (_, out) :- StoreCode(H, lim, store, wasm, valid, gas);
      Success(out)
    case Create(sender, codeId, data, height, gas, guest, fuel) =>
      var (_, out) :- CreateContract(H, store, sender, codeId, data, height, gas, guest, fuel);
      Success(out)
    case Invoke(sender, id, data, height, gas, guest, fuel) =>
      ExecuteContract(lim, store, sender, id, data, height, gas, guest, fuel)
  }

  /** The caller applies the writes only if the call succeeded. */
  ghost function After(H: Digest, lim: Limits, store: Store, c: Call): Store {
    match Perform(H, lim, store, c)
    case Success(out) => Apply(store, out.writes)
    case Failure(_) => store
  }

  /** What an accepted call does to the ledgers; a call the ledgers themselves would refuse has no effect here. */
  function Advance(H: Digest, tokens: Tokens, c: Call): Tokens {
    match c
    case Upload(_, _, _) => tokens
    case Create(sender, codeId, data, _, _, _, _) =>
      if codeId != AUGE20_CODE_ID || DecodeInit(data).Failure? then tokens
      else tokens[ContractIdOf(H, sender, codeId, data) := Genesis(DecodeInit(data).value, sender)]
    case Invoke(sender, id, data, _, _, _, _) =>
      if id !in tokens || DecodeCall(data).Failure? then tokens else
      var s := Step(tokens[id], id, sender, DecodeCall(data).value);
      if s.Failure? then tokens else tokens[id := s.value.0]
  }

  /** What holds of one contract id: metadata, ledger and key space agree. */
  ghost predicate Sound(store: Store, tokens: Tokens, id: Id) {
    && (KeyContract(id) !in store ==> id !in tokens && Snapshot(store, id) == map[])
    && (KeyContract(id) in store ==>
          var m := DecodeMeta(store[KeyContract(id)]);
          && m.Success? && m.value.contractId == id && !m.value.isAuge20
          && (m.value.codeId == AUGE20_CODE_ID <==> id in tokens))
    && (id in tokens ==> tokens[id].Good() && Represents(Snapshot(store, id), id, tokens[id]))
  }

  ghost predicate Inv(store: Store, tokens: Tokens) {
    forall id: Id :: Sound(store, tokens, id)
  }

  // ---- Frames ----

  /** Contract `id` looks the same in both stores. */
  ghost predicate Same(a: Store, b: Store, id: Id) {
    Lookup(a, KeyContract(id)) == Lookup(b, KeyContract(id)) && Snapshot(a, id) == Snapshot(b, id)
  }

  lemma SameSound(a: Store, b: Store, tokens: Tokens, id: Id)
    requires Same(a, b, id) && Sound(a, tokens, id)
    ensures Sound(b, tokens, id)
  {
    hide Snapshot, Represents, DecodeMeta, Ledger.Good;
  }

  lemma SystemWrite(store: Store, key: Bytes, v: Bytes, id: Id)
    requires !IsStateKey(key)
    ensures Snapshot(store[key := v], id) == Snapshot(store, id)
  {
    forall k
      ensures Lookup(Snapshot(store[key := v], id), k) == Lookup(Snapshot(store, id), k)
    {
      KeyStateParts(id, k);
    }
    SameLookups(Snapshot(store[key := v], id), Snapshot(store, id));
  }

  // ---- Token calls ----

  /** The host a call on an existing token starts with. */
  lemma FreshHost(store: Store, sender: u64, height: u64, id: Id)
    ensures var h := NewHost(store, sender, height, id);
            h.Valid() && Roomy(h, 3) && h.View() == Snapshot(store, id) && h.base == Snapshot(store, id) && h.id == id && h.sender == sender
  {
    var h := NewHost(store, sender, height, id);
    assert h.View() == h.base;
    assert Lens(h.written) == map[];
  }

  lemma HarvestAccepts(h: Host, prior: seq<WriteOp>)
    requires Charged(h) && !h.exceeded && h.bytes <= MAX_LOG_BYTES
    ensures Harvest(prior, h.exceeded, SomeLog(h)).Success?
  {
    LogCharged(h);
  }

  /**
    A decodable call on a token is accepted exactly when the ledger accepts it and the gas suffices,
    fails with the ledger's own error otherwise, and on success leaves the ledger's next state and event.
   */
  lemma InvokeExact(store: Store, tokens: Tokens, sender: u64, id: Id, data: Bytes, height: u64, gas: u64, fuel: Fuel)
    requires Inv(store, tokens) && id in tokens && DecodeCall(data).Success?
    ensures var c := DecodeCall(data).value;
            var s := Step(tokens[id], id, sender, c);
            var r := ExecuteToken(store, sender, id, data, height, gas, fuel);
            var base := if c.Mint? then 7_500 else 5_000;
            && (gas < base || fuel.Exhausted? ==> r == Failure(OutOfGas))
            && (gas >= base && fuel.Spent? && s.Failure? ==> r == Failure(s.error))
            && (gas >= base && fuel.Spent? && s.Success? ==>
                  && r.Success? && r.value.events == [s.value.1] && r.value.gasUsed == base + fuel.units
                  && s.value.0.Good()
                  && Represents(Snapshot(Apply(store, r.value.writes), id), id, s.value.0)
                  && (forall o: Id :: Lookup(Apply(store, r.value.writes), KeyContract(o)) == Lookup(store, KeyContract(o)))
                  && (forall o: Id | o != id :: Snapshot(Apply(store, r.value.writes), o) == Snapshot(store, o)))
  {
    hide Snapshot, Represents, Utf8, Auge20.Execute, Step, NewHost, DecodeCall, Harvest, Surface, Ledger.Good;
    assert Sound(store, tokens, id);
    var l, c := tokens[id], DecodeCall(data).value;
    FreshHost(store, sender, height, id);
    var h := NewHost(store, sender, height, id);
    ExecuteImplements(h, l, data, c);
    var s := Step(l, id, sender, c);
    if s.Success? {
      StepGood(l, id, sender, c);
      var g := Auge20.Execute(h, data).value.0;
      HarvestAccepts(g, []);
      SurfaceOne(s.value.1);
      ContractKeysKept(store, g, [], Harvest([], g.exceeded, SomeLog(g)).value);
    }
  }

  /** A harvest changes no metadata record beyond the engine's own writes, and no other contract's view. */
  lemma ContractKeysKept(store: Store, g: Host, prior: seq<WriteOp>, ws: seq<WriteOp>)
    requires g.Valid() && g.base == Snapshot(store, g.id)
    requires DistinctKeys(prior) && forall w | w in prior :: !IsStateKey(w.key)
    requires Harvest(prior, g.exceeded, SomeLog(g)) == Success(ws)
    ensures Snapshot(Apply(store, ws), g.id) == g.View()
    ensures forall o: Id | o != g.id :: Snapshot(Apply(store, ws), o) == Snapshot(store, o)
    ensures forall o: Id :: Lookup(Apply(store, ws), KeyContract(o)) == Lookup(Apply(store, prior), KeyContract(o))
  {
    HarvestIsolated(store, g, prior, ws);
    forall o: Id
      ensures Lookup(Apply(store, ws), KeyContract(o)) == Lookup(Apply(store, prior), KeyContract(o))
    {
      SystemKeysOutside(0, o, o, 0);
    }
  }

  // ---- Token creation ----

  /** A token is created exactly when its parameters are acceptable, its id is new and the gas suffices. */
  lemma CreateExact(H: Digest, store: Store, tokens: Tokens, sender: u64, data: Bytes, height: u64, gas: u64, fuel: Fuel)
    requires Inv(store, tokens)
    ensures var r := CreateToken(H, store, sender, data, height, gas, fuel);
            var id := ContractIdOf(H, sender, AUGE20_CODE_ID, data);
            var t := DecodeInit(data);
            && (r.Success? <==> gas >= 10_000 && t.Success? && Acceptable(t.value) && KeyContract(id) !in store && fuel.Spent?)
            && (r.Success? ==>
                  var after := Apply(store, r.value.1.writes);
                  && r.value.0 == id && r.value.1.events == [ContractCreated(id, sender, AUGE20_CODE_ID)]
                  && Genesis(t.value, sender).Good()
                  && Represents(Snapshot(after, id), id, Genesis(t.value, sender))
                  && Lookup(after, KeyContract(id)) == Some(EncodeMeta(ContractMeta(id, sender, 1, false, 0, height)))
                  && r.value.1.gasUsed == 10_000 + fuel.units
                  && (forall o: Id | o != id :: Same(store, after, o)))
  {
    hide Snapshot, Represents, Utf8, Instantiate, NewHost, Harvest, EncodeMeta, Ledger.Good, ContractIdOf, KeyContract, DecodeInit,
         Genesis;
    var id := ContractIdOf(H, sender, AUGE20_CODE_ID, data);
    if gas >= GAS_CREATE && CheckInit(data).Success? && KeyContract(id) !in store && fuel.Spent? {
      var t := DecodeInit(data).value;
      assert Sound(store, tokens, id);
      FreshHost(store, sender, height, id);
      var h := NewHost(store, sender, height, id);
      InstantiateImplements(h, data, t);
      if Acceptable(t) {
        InitText(data);
        GenesisGood(t, sender);
        var g := Instantiate(h, data).value;
        HarvestAccepts(g, []);
        var ws := Harvest([], g.exceeded, SomeLog(g)).value;
        ContractKeysKept(store, g, [], ws);
        AppendMeta(store, ws, NewMeta(id, sender, AUGE20_CODE_ID, height));
      }
    }
  }

  lemma InitText(data: Bytes)
    requires DecodeInit(data).Success?
    ensures Utf8(DecodeInit(data).value.name) && Utf8(DecodeInit(data).value.symbol)
  {
    hide Utf8;
  }

  lemma AppendMeta(store: Store, ws: seq<WriteOp>, m: ContractMeta)
    ensures var before, after := Apply(store, ws), Apply(store, ws + [MetaWrite(m)]);
            && Lookup(after, KeyContract(m.contractId)) == Some(EncodeMeta(m))
            && (forall o: Id :: Snapshot(after, o) == Snapshot(before, o))
            && (forall o: Id | o != m.contractId :: Lookup(after, KeyContract(o)) == Lookup(before, KeyContract(o)))
  {
    hide Snapshot, EncodeMeta;
    var before := Apply(store, ws);
    assert (ws + [MetaWrite(m)])[..|ws|] == ws;
    SystemKeysOutside(0, m.contractId, m.contractId, 0);
    forall o: Id
      ensures Snapshot(before[KeyContract(m.contractId) := EncodeMeta(m)], o) == Snapshot(before, o)
      ensures o != m.contractId ==> KeyContract(o) != KeyContract(m.contractId)
    {
      SystemWrite(before, KeyContract(m.contractId), EncodeMeta(m), o);
      CodeKeysApart(0, 0, o, m.contractId);
    }
  }

  // ---- Every step keeps the invariant ----

  lemma NewContractSound(store: Store, after: Store, tokens: Tokens, id: Id, m: ContractMeta)
    requires Inv(store, tokens) && KeyContract(id) !in store
    requires m.contractId == id && !m.isAuge20 && m.codeId != AUGE20_CODE_ID
    requires Lookup(after, KeyContract(id)) == Some(EncodeMeta(m))
    requires forall o: Id | o != id :: Same(store, after, o)
    ensures Inv(after, tokens)
  {
    hide Snapshot, Represents, DecodeMeta, EncodeMeta, Ledger.Good, KeyContract;
    MetaRoundTrip(m);
    forall o: Id
      ensures Sound(after, tokens, o)
    {
      assert Sound(store, tokens, o);
      if o != id {
        SameSound(store, after, tokens, o);
      }
    }
  }

  lemma NewTokenSound(store: Store, after: Store, tokens: Tokens, id: Id, m: ContractMeta, l: Ledger)
    requires Inv(store, tokens)
    requires m.contractId == id && !m.isAuge20 && m.codeId == AUGE20_CODE_ID
    requires Lookup(after, KeyContract(id)) == Some(EncodeMeta(m))
    requires l.Good() && Represents(Snapshot(after, id), id, l)
    requires forall o: Id | o != id :: Same(store, after, o)
    ensures Inv(after, tokens[id := l])
  {
    hide Snapshot, Represents, DecodeMeta, EncodeMeta, Ledger.Good, KeyContract;
    MetaRoundTrip(m);
    var now := tokens[id := l];
    forall o: Id
      ensures Sound(after, now, o)
    {
      assert Sound(store, tokens, o);
      if o != id {
        SameSound(store, after, tokens, o);
      }
    }
  }

  lemma UploadKeeps(H: Digest, lim: Limits, store: Store, tokens: Tokens, c: Call)
    requires Inv(store, tokens) && c.Upload?
    ensures Inv(After(H, lim, store, c), tokens)
  {
    hide Snapshot, Represents, DecodeMeta, Ledger.Good, StoreCode, Apply;
    var r := StoreCode(H, lim, store, c.wasm, c.valid, c.gas);
    if r.Success? {
      var ws := r.value.1.writes;
      forall o: Id
        ensures Sound(Apply(store, ws), tokens, o)
      {
        assert Sound(store, tokens, o);
        UploadWrites(H, lim, store, c.wasm, c.valid, c.gas, o);
        CodeWritesKeep(store, ws, o);
        SameSound(store, Apply(store, ws), tokens, o);
      }
    }
  }

  predicate OutsideContract(w: WriteOp, o: Id) { w.value.Some? && !IsStateKey(w.key) && w.key != KeyContract(o) }

  lemma UploadWrites(H: Digest, lim: Limits, store: Store, wasm: Bytes, valid: bool, gas: u64, o: Id)
    requires StoreCode(H, lim, store, wasm, valid, gas).Success?
    ensures forall w | w in StoreCode(H, lim, store, wasm, valid, gas).value.1.writes :: OutsideContract(w, o)
  {
    hide KeyContract, KeyCode, KeyCodeHash, EncodeCode, IsStateKey;
    var hash := CodeHashOf(H, wasm);
    SystemKeysOutside(NextCodeId(store), hash, o, 0);
    CodeKeysApart(NextCodeId(store), 0, o, hash);
  }

  lemma CodeWritesKeep(store: Store, ws: seq<WriteOp>, o: Id)
    requires forall w | w in ws :: OutsideContract(w, o)
    ensures Same(store, Apply(store, ws), o)
  {
    hide Snapshot, KeyContract;
    if ws != [] {
      CodeWritesKeep(store, ws[..|ws| - 1], o);
      var m, w := Apply(store, ws[..|ws| - 1]), ws[|ws| - 1];
      assert w in ws;
      SystemWrite(m, w.key, w.value.value, o);
    }
  }

  lemma CreateKeeps(H: Digest, lim: Limits, store: Store, tokens: Tokens, c: Call)
    requires Inv(store, tokens) && c.Create? && Perform(H, lim, store, c).Success?
    ensures Inv(After(H, lim, store, c), Advance(H, tokens, c))
  {
    hide Snapshot, Represents, DecodeMeta, EncodeMeta, Ledger.Good, KeyContract, CreateToken, Inv, DecodeInit, ContractIdOf, Apply,
         CreateStored, Genesis;
    var id := ContractIdOf(H, c.sender, c.codeId, c.data);
    if c.codeId == AUGE20_CODE_ID {
      CreateExact(H, store, tokens, c.sender, c.data, c.height, c.gas, c.fuel);
      NewTokenSound(store, After(H, lim, store, c), tokens, id, NewMeta(id, c.sender, c.codeId, c.height),
                    Genesis(DecodeInit(c.data).value, c.sender));
    } else {
      StoredCreate(H, store, c.sender, c.codeId, c.data, c.height, c.gas, c.guest, c.fuel);
      NewContractSound(store, After(H, lim, store, c), tokens, id, NewMeta(id, c.sender, c.codeId, c.height));
    }
  }

  lemma StoredCreate(H: Digest, store: Store, sender: u64, codeId: u64, data: Bytes, height: u64, gas: u64, g: Guest, fuel: Fuel)
    ensures var r := CreateStored(H, store, sender, codeId, data, height, gas, g, fuel);
            var id := ContractIdOf(H, sender, codeId, data);
            r.Success? ==>
              && r.value.0 == id && KeyContract(id) !in store
              && Lookup(Apply(store, r.value.1.writes), KeyContract(id)) == Some(EncodeMeta(NewMeta(id, sender, codeId, height)))
              && (forall o: Id | o != id :: Same(store, Apply(store, r.value.1.writes), o))
  {
    hide Snapshot, NewHost, Harvest, EncodeMeta, ContractIdOf, DecodeCode, Surface, IsStateKey;
    var r := CreateStored(H, store, sender, codeId, data, height, gas, g, fuel);
    if r.Success? {
      var id := ContractIdOf(H, sender, codeId, data);
      var prior, h := [MetaWrite(NewMeta(id, sender, codeId, height))], NewHost(store, sender, height, id).Run(g.calls);
      FreshHost(store, sender, height, id);
      SystemKeysOutside(0, id, id, 0);
      ContractKeysKept(store, h, prior, r.value.1.writes);
      assert prior[..0] == [] && Apply(store, prior) == ApplyOne(store, prior[0]);
      forall o: Id | o != id
        ensures KeyContract(o) != KeyContract(id)
      {
        CodeKeysApart(0, 0, o, id);
      }
    }
  }

  lemma StoredExecute(store: Store, sender: u64, meta: ContractMeta, id: Id, height: u64, gas: u64, g: Guest, fuel: Fuel)
    ensures var r := ExecuteStored(store, sender, meta, id, height, gas, g, fuel);
            r.Success? ==>
              && Lookup(Apply(store, r.value.writes), KeyContract(id)) == Lookup(store, KeyContract(id))
              && (forall o: Id | o != id :: Same(store, Apply(store, r.value.writes), o))
  {
    hide Snapshot, NewHost, Harvest, DecodeCode, Surface, IsStateKey, KeyContract;
    var r := ExecuteStored(store, sender, meta, id, height, gas, g, fuel);
    if r.Success? {
      FreshHost(store, sender, height, id);
      ContractKeysKept(store, NewHost(store, sender, height, id).Run(g.calls), [], r.value.writes);
      assert Apply(store, []) == store;
    }
  }

  lemma InvokeKeeps(H: Digest, lim: Limits, store: Store, tokens: Tokens, c: Call)
    requires Inv(store, tokens) && c.Invoke? && Perform(H, lim, store, c).Success?
    ensures Inv(After(H, lim, store, c), Advance(H, tokens, c))
  {
    hide Snapshot, Represents, DecodeMeta, Ledger.Good, KeyContract, DecodeCall, Apply, ExecuteToken, ExecuteStored, ExecuteNative, Step;
    var after, now := After(H, lim, store, c), Advance(H, tokens, c);
    assert Sound(store, tokens, c.id);
    var meta := DecodeMeta(store[KeyContract(c.id)]).value;
    if c.id in tokens {
      TokenCallDecodes(store, c.sender, c.id, c.data, c.height, c.gas, c.fuel);
      InvokeExact(store, tokens, c.sender, c.id, c.data, c.height, c.gas, c.fuel);
    } else {
      StoredExecute(store, c.sender, meta, c.id, c.height, c.gas, c.guest, c.fuel);
    }
    forall o: Id
      ensures Sound(after, now, o)
    {
      assert Sound(store, tokens, o);
      if o != c.id {
        SameSound(store, after, tokens, o);
      }
    }
  }

  lemma TokenCallDecodes(store: Store, sender: u64, id: Id, data: Bytes, height: u64, gas: u64, fuel: Fuel)
    requires ExecuteToken(store, sender, id, data, height, gas, fuel).Success?
    ensures DecodeCall(data).Success?
  {
  }

  lemma StepKeeps(H: Digest, lim: Limits, store: Store, tokens: Tokens, c: Call)
    requires Inv(store, tokens)
    ensures Perform(H, lim, store, c).Failure? ==> After(H, lim, store, c) == store
    ensures Perform(H, lim, store, c).Success? ==> Inv(After(H, lim, store, c), Advance(H, tokens, c))
  {
    hide Perform, Inv;
    if Perform(H, lim, store, c).Success? {
      match c
      case Upload(_, _, _) => UploadKeeps(H, lim, store, tokens, c);
      case Create(_, _, _, _, _, _, _) => CreateKeeps(H, lim, store, tokens, c);
      case Invoke(_, _, _, _, _, _, _) => InvokeKeeps(H, lim, store, tokens, c);
    }
  }

  // ---- Whole runs ----

  datatype Reached = Reached(store: Store, tokens: Tokens)

  /** The store advances by the engine; the ledgers advance by the calls the engine accepted. */
  ghost function Run(H: Digest, lim: Limits, calls: seq<Call>): Reached
    decreases |calls|
  {
    if calls == [] then Reached(map[], map[])
    else
      var w, c := Run(H, lim, calls[..|calls| - 1]), calls[|calls| - 1];
      Reached(After(H, lim, w.store, c), if Perform(H, lim, w.store, c).Success? then Advance(H, w.tokens, c) else w.tokens)
  }

  /** Refinement over every run from the empty store. */
  lemma {:induction false} RunRefines(H: Digest, lim: Limits, calls: seq<Call>)
    ensures Inv(Run(H, lim, calls).store, Run(H, lim, calls).tokens)
  {
    if calls == [] {
      forall id: Id
        ensures Sound(map[], map[], id)
      {
        assert Snapshot(map[], id) == map[];
      }
    } else {
      RunRefines(H, lim, calls[..|calls| - 1]);
      var w := Run(H, lim, calls[..|calls| - 1]);
      StepKeeps(H, lim, w.store, w.tokens, calls[|calls| - 1]);
    }
  }

  /** Conservation over every run: each token's balances add up to its supply, within its cap, in the very cells of the store. */
  lemma RunConserves(H: Digest, lim: Limits, calls: seq<Call>, id: Id)
    requires id in Run(H, lim, calls).tokens
    ensures var w := Run(H, lim, calls);
            var l := w.tokens[id];
            && Sum(l.balances) == l.supply <= l.config.maxSupply
            && Represents(Snapshot(w.store, id), id, l)
  {
    RunRefines(H, lim, calls);
    assert Sound(Run(H, lim, calls).store, Run(H, lim, calls).tokens, id);
  }

  /** The ledger itself overflows only by a mint past 2^64. */
  lemma LedgerOverflow(l: Ledger, id: Id, sender: u64, c: TokenCall)
    ensures Step(l, id, sender, c) == Failure(ArithmeticOverflow) ==> c.Mint? && l.supply + c.amount >= U64_END
  {
  }

  /** In a reachable store the only arithmetic overflow a token call can report is a mint past 2^64 supply. */
  lemma OverflowUnreachable(H: Digest, lim: Limits, calls: seq<Call>, sender: u64, id: Id, data: Bytes, height: u64, gas: u64, fuel: Fuel)
    requires id in Run(H, lim, calls).tokens
    ensures var w := Run(H, lim, calls);
            ExecuteToken(w.store, sender, id, data, height, gas, fuel) == Failure(ArithmeticOverflow) ==>
              && DecodeCall(data).Success? && DecodeCall(data).value.Mint?
              && w.tokens[id].supply + DecodeCall(data).value.amount >= U64_END
  {
    hide DecodeCall, Inv, Represents, Snapshot, Apply, Auge20.Execute, Step, ExecuteToken, Run, Ledger.Good;
    var w := Run(H, lim, calls);
    RunRefines(H, lim, calls);
    if DecodeCall(data).Failure? {
      Undecodable(w.store, sender, id, data, height, gas, fuel);
    } else {
      LedgerOverflow(w.tokens[id], id, sender, DecodeCall(data).value);
      InvokeExact(w.store, w.tokens, sender, id, data, height, gas, fuel);
    }
  }

  lemma Undecodable(store: Store, sender: u64, id: Id, data: Bytes, height: u64, gas: u64, fuel: Fuel)
    requires DecodeCall(data).Failure?
    ensures ExecuteToken(store, sender, id, data, height, gas, fuel) == Failure(InvalidData)
  {
    hide DecodeCall;
  }

  /** After any run, a query on a token runs out of fuel or returns bytes that decode to the ledger's own answer. */
  lemma QueryExact(H: Digest, lim: Limits, calls: seq<Call>, id: Id, q: TokenQuery, fuel: Fuel, other: Result<Bytes, ContractError>)
    requires id in Run(H, lim, calls).tokens
    ensures var w := Run(H, lim, calls);
            var l := w.tokens[id];
            var r := QueryContract(w.store, id, EncodeQuery(q), fuel, other);
            && l.supply < U64_END && (forall a | a in l.balances :: l.balances[a] < U64_END)
            && (fuel.Exhausted? ==> r == Failure(OutOfGas))
            && (fuel.Spent? ==> r.Success? && DecodeResult(r.value) == Success(Answer(l, q)))
  {
    hide Inv, Represents, Snapshot, DecodeResult, EncodeResult, EncodeQuery, NewHost, DecodeMeta, KeyContract, Run, Auge20.Query,
         Ledger.Good, Answer;
    var w := Run(H, lim, calls);
    RunRefines(H, lim, calls);
    SoundAt(w.store, w.tokens, id);
    FreshHost(w.store, 0, 0, id);
    QueryAnswers(NewHost(w.store, 0, 0, id), w.tokens[id], q);
  }

  lemma SoundAt(store: Store, tokens: Tokens, id: Id)
    requires Inv(store, tokens) && id in tokens
    ensures tokens[id].Good() && tokens[id].supply < U64_END && Represents(Snapshot(store, id), id, tokens[id])
    ensures KeyContract(id) in store
    ensures var m := DecodeMeta(store[KeyContract(id)]); m.Success? && m.value.contractId == id && m.value.codeId == AUGE20_CODE_ID
  {
    assert Sound(store, tokens, id);
  }
}
