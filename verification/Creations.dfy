/** What contract and code ids stand for: who created what, and why nobody else is in the way. */
module Creations {
  import opened Bytes
  import opened Hashing
  import opened ContractTypes
  import opened ContractStore
  import opened WriteSort
  import opened WasmHost
  import opened Auge20
  import opened TokenLedger
  import opened NativeToken
  import opened Engine
  import opened World
  import opened CodeStore

  /** Two different inputs whose digests agree in the 32 bytes that ids are made of. */
  predicate Agreement(H: Digest, x: Bytes, y: Bytes) { x != y && H(x)[..32] == H(y)[..32] }

  // ---- Contract ids ----

  /** A creation, as far as its id goes. */
  datatype Creation = Creation(owner: u64, codeId: u64, init: Bytes)

  function IdOf(H: Digest, c: Creation): Id { ContractIdOf(H, c.owner, c.codeId, c.init) }

  /** What is hashed: owner, code id and initialization data, one behind the other. */
  function Preimage(c: Creation): Bytes { U64(c.owner) + (U64(c.codeId) + (U32(|c.init| % 0x1_0000_0000) + c.init)) }

  /** Even where the length word is truncated, the preimage tells everything apart. */
  lemma PreimageInjective(a: Creation, b: Creation)
    requires Preimage(a) == Preimage(b)
    ensures a == b
  {
    hide U64, U32;
    PreimageParts(a);
    PreimageParts(b);
    U64Injective(a.owner, b.owner);
    U64Injective(a.codeId, b.codeId);
  }

  lemma PreimageParts(c: Creation)
    ensures var x := Preimage(c); |x| == 20 + |c.init| && x[..8] == U64(c.owner) && x[8..16] == U64(c.codeId) && x[20..] == c.init
  {
    hide U64, U32;
    var x, tail := Preimage(c), U32(|c.init| % 0x1_0000_0000) + c.init;
    assert x[..8] == U64(c.owner) && x[8..] == U64(c.codeId) + tail;
    assert x[8..][..8] == U64(c.codeId) && x[8..][8..] == tail;
    assert x[8..16] == x[8..][..8] && x[16..] == x[8..][8..];
    assert x[20..] == x[16..][4..] == c.init;
  }

  /** Different creations have different ids, or an agreement of digests is exhibited. */
  lemma IdBinds(H: Digest, a: Creation, b: Creation) returns (x: Bytes, y: Bytes)
    requires a != b && IdOf(H, a) == IdOf(H, b)
    ensures Agreement(H, x, y)
  {
    hide Preimage;
    x, y := Preimage(a), Preimage(b);
    if x == y {
      PreimageInjective(a, b);
    }
    HashedPreimage(H, a);
    HashedPreimage(H, b);
  }

  lemma HashedPreimage(H: Digest, c: Creation)
    ensures IdOf(H, c) == H(Preimage(c))[..32]
  {
  }

  // ---- Over runs ----

  /** Call `i` of the run was an accepted creation, this one. */
  ghost predicate CreatedAt(H: Digest, lim: Limits, calls: seq<Call>, i: nat, c: Creation) {
    && i < |calls| && calls[i].Create? && c == Creation(calls[i].sender, calls[i].codeId, calls[i].data)
    && Perform(H, lim, Run(H, lim, calls[..i]).store, calls[i]).Success?
  }

  ghost predicate Created(H: Digest, lim: Limits, calls: seq<Call>, c: Creation) {
    exists i | 0 <= i < |calls| :: CreatedAt(H, lim, calls, i, c)
  }

  lemma CreatedLater(H: Digest, lim: Limits, calls: seq<Call>, c: Creation)
    requires calls != [] && Created(H, lim, calls[..|calls| - 1], c)
    ensures Created(H, lim, calls, c)
  {
    hide Perform, Run;
    var front := calls[..|calls| - 1];
    var i :| 0 <= i < |front| && CreatedAt(H, lim, front, i, c);
    assert front[..i] == calls[..i];
    assert CreatedAt(H, lim, calls, i, c);
  }

  /** No call but an accepted creation of that id changes the record. */
  lemma RecordKept(H: Digest, lim: Limits, store: Store, tokens: Tokens, c: Call, id: Id)
    requires Inv(store, tokens)
    ensures || Lookup(After(H, lim, store, c), KeyContract(id)) == Lookup(store, KeyContract(id))
            || (c.Create? && Perform(H, lim, store, c).Success? && ContractIdOf(H, c.sender, c.codeId, c.data) == id)
  {
    hide Inv, Apply, StoreCode, CreateToken, CreateStored, ExecuteContract, KeyContract, ContractIdOf, Snapshot, Represents, Ledger.Good, Genesis,
         DecodeInit, EncodeMeta;
    var r := Perform(H, lim, store, c);
    if r.Success? {
      match c
      case Upload(wasm, valid, gas) =>
        UploadWrites(H, lim, store, wasm, valid, gas, id);
        CodeWritesKeep(store, r.value.writes, id);
      case Create(sender, codeId, data, height, gas, guest, fuel) =>
        var made := ContractIdOf(H, sender, codeId, data);
        if made != id {
          if codeId == AUGE20_CODE_ID {
            World.CreateExact(H, store, tokens, sender, data, height, gas, fuel);
          } else {
            StoredCreate(H, store, sender, codeId, data, height, gas, guest, fuel);
          }
          assert Same(store, Apply(store, r.value.writes), id);
        }
      case Invoke(sender, o, data, height, gas, guest, fuel) =>
        InvokeKeepsRecords(H, lim, store, tokens, c, id);
    }
  }

  lemma InvokeKeepsRecords(H: Digest, lim: Limits, store: Store, tokens: Tokens, c: Call, id: Id)
    requires Inv(store, tokens) && c.Invoke? && Perform(H, lim, store, c).Success?
    ensures Lookup(Apply(store, Perform(H, lim, store, c).value.writes), KeyContract(id)) == Lookup(store, KeyContract(id))
  {
    hide Inv, Apply, ExecuteToken, ExecuteStored, ExecuteNative, KeyContract, Snapshot, Represents, Ledger.Good, DecodeMeta, DecodeCall,
         TokenLedger.Step;
    InvKnows(store, tokens, c.id);
    if c.id in tokens {
      if DecodeCall(c.data).Failure? {
        Undecodable(store, c.sender, c.id, c.data, c.height, c.gas, c.fuel);
      } else {
        InvokeExact(store, tokens, c.sender, c.id, c.data, c.height, c.gas, c.fuel);
      }
    } else {
      StoredExecute(store, c.sender, DecodeMeta(store[KeyContract(c.id)]).value, c.id, c.height, c.gas, c.guest, c.fuel);
      if c.id != id {
        assert Same(store, Apply(store, Perform(H, lim, store, c).value.writes), id);
      }
    }
  }

  /** Every contract on record after a run was created in it. */
  lemma {:induction false} RecordsAreCreated(H: Digest, lim: Limits, calls: seq<Call>, id: Id) returns (c: Creation)
    requires KeyContract(id) in Run(H, lim, calls).store
    ensures Created(H, lim, calls, c) && IdOf(H, c) == id
    decreases |calls|
  {
    hide Inv, KeyContract, ContractIdOf, Perform, After, Advance;
    var n := |calls| - 1;
    assert calls != [];
    var front := calls[..n];
    var w := Run(H, lim, front);
    RunRefines(H, lim, front);
    if KeyContract(id) in w.store {
      c := RecordsAreCreated(H, lim, front, id);
      CreatedLater(H, lim, calls, c);
    } else {
      RecordKept(H, lim, w.store, w.tokens, calls[n], id);
      c := Creation(calls[n].sender, calls[n].codeId, calls[n].data);
      assert CreatedAt(H, lim, calls, n, c);
    }
  }

  /**
    After any run a creation is refused as a duplicate only if the very same creation (owner, code and data) was accepted in
    it, or an agreement of digests is exhibited.
   */
  lemma DuplicatesAreSame(H: Digest, lim: Limits, calls: seq<Call>, c: Call) returns (x: Bytes, y: Bytes)
    requires c.Create? && Perform(H, lim, Run(H, lim, calls).store, c) == Failure(DuplicateContract)
    ensures Created(H, lim, calls, Creation(c.sender, c.codeId, c.data)) || Agreement(H, x, y)
  {
    hide KeyContract, ContractIdOf, Created, Agreement, Run;
    var id := ContractIdOf(H, c.sender, c.codeId, c.data);
    var store := Run(H, lim, calls).store;
    assert KeyContract(id) in store by { DuplicateMeans(H, lim, store, c); }
    var d := RecordsAreCreated(H, lim, calls, id);
    x, y := [], [];
    if d != Creation(c.sender, c.codeId, c.data) {
      x, y := IdBinds(H, d, Creation(c.sender, c.codeId, c.data));
    }
  }

  lemma DuplicateMeans(H: Digest, lim: Limits, store: Store, c: Call)
    requires c.Create? && Perform(H, lim, store, c) == Failure(DuplicateContract)
    ensures KeyContract(ContractIdOf(H, c.sender, c.codeId, c.data)) in store
  {
    hide KeyContract, ContractIdOf, Instantiate, NewHost, Sort, ValueBytes, KeyCode, DecodeCode, DecodeInit, EncodeMeta, Surface, Host.Run;
    if c.codeId == AUGE20_CODE_ID {
      var id := ContractIdOf(H, c.sender, AUGE20_CODE_ID, c.data);
      NeverDuplicate(NewHost(store, c.sender, c.height, id), c.data, c.fuel);
    }
  }

  /** The guest never reports a duplicate. */
  lemma NeverDuplicate(h: Host, data: Bytes, fuel: Fuel)
    ensures Finished(fuel, Instantiate(h, data)) != Failure(DuplicateContract)
  {
    hide ParseGuestInit, EncodeState, WriteAmount, Host.Step;
  }

  /**
    So from every reachable store an acceptable token that was not created before is created, given gas and fuel, or an
    agreement of digests is exhibited.
   */
  lemma NewTokenCreated(H: Digest, lim: Limits, calls: seq<Call>, c: Call) returns (x: Bytes, y: Bytes)
    requires c.Create? && c.codeId == AUGE20_CODE_ID && c.gas >= 10_000 && c.fuel.Spent?
    requires DecodeInit(c.data).Success? && Acceptable(DecodeInit(c.data).value)
    requires !Created(H, lim, calls, Creation(c.sender, c.codeId, c.data))
    ensures Perform(H, lim, Run(H, lim, calls).store, c).Success? || Agreement(H, x, y)
  {
    hide KeyContract, ContractIdOf, Created, Agreement, Run, Inv, CreateToken, DecodeInit, Snapshot, Represents, Ledger.Good, Genesis, EncodeMeta,
         Apply, Acceptable;
    var w := Run(H, lim, calls);
    var id := ContractIdOf(H, c.sender, c.codeId, c.data);
    RunRefines(H, lim, calls);
    World.CreateExact(H, w.store, w.tokens, c.sender, c.data, c.height, c.gas, c.fuel);
    x, y := [], [];
    if KeyContract(id) in w.store {
      var d := RecordsAreCreated(H, lim, calls, id);
      x, y := IdBinds(H, d, Creation(c.sender, c.codeId, c.data));
    }
  }

  // ---- Code ids ----

  /**
    Two modules uploaded one after the other get one code id only if they are the same bytes, or an agreement of digests is
    exhibited.
   */
  lemma CodeIdBinds(H: Digest, lim: Limits, store: Store, codes: seq<Bytes>, a: Bytes, b: Bytes, gas: u64) returns (x: Bytes, y: Bytes)
    requires Registry(H, lim, store, codes) && CodeId(|codes|) + 1 < U64_END
    requires StoreCode(H, lim, store, a, true, gas).Success?
    requires StoreCode(H, lim, Apply(store, StoreCode(H, lim, store, a, true, gas).value.1.writes), b, true, gas).Success?
    requires StoreCode(H, lim, Apply(store, StoreCode(H, lim, store, a, true, gas).value.1.writes), b, true, gas).value.0
             == StoreCode(H, lim, store, a, true, gas).value.0
    ensures a == b || Agreement(H, x, y)
  {
    hide Registry, StoreCode, Apply, CodeHashOf;
    x, y := a, b;
    var first := StoreCode(H, lim, store, a, true, gas).value;
    var after := Apply(store, first.1.writes);
    UploadExact(H, lim, store, codes, a, true, gas);
    var i, now := Registered(H, lim, store, codes, a, gas);
    UploadExact(H, lim, after, now, b, true, gas);
    SameHash(H, lim, after, now, b, gas, i);
    if a != b {
      HashAgrees(H, a, b);
    }
  }

  lemma HashAgrees(H: Digest, a: Bytes, b: Bytes)
    requires CodeHashOf(H, a) == CodeHashOf(H, b) && a != b
    ensures Agreement(H, a, b)
  {
  }

  /** After an accepted upload the registry holds a module of that hash under the answered id. */
  lemma Registered(H: Digest, lim: Limits, store: Store, codes: seq<Bytes>, a: Bytes, gas: u64) returns (i: nat, now: seq<Bytes>)
    requires Registry(H, lim, store, codes) && CodeId(|codes|) + 1 < U64_END && StoreCode(H, lim, store, a, true, gas).Success?
    ensures var r := StoreCode(H, lim, store, a, true, gas).value;
            Registry(H, lim, Apply(store, r.1.writes), now) && i < |now| && CodeHashOf(H, now[i]) == CodeHashOf(H, a) && r.0 == CodeId(i)
  {
    hide Registry, StoreCode, CodeHashOf;
    UploadExact(H, lim, store, codes, a, true, gas);
    if k :| 0 <= k < |codes| && CodeHashOf(H, codes[k]) == CodeHashOf(H, a) {
      i, now := k, codes;
    } else {
      i, now := |codes|, codes + [a];
    }
  }

  /** An upload that is answered with a registered id has that module's hash. */
  lemma SameHash(H: Digest, lim: Limits, store: Store, codes: seq<Bytes>, b: Bytes, gas: u64, i: nat)
    requires Registry(H, lim, store, codes) && i < |codes|
    requires StoreCode(H, lim, store, b, true, gas).Success? && StoreCode(H, lim, store, b, true, gas).value.0 == CodeId(i)
    ensures CodeHashOf(H, codes[i]) == CodeHashOf(H, b)
  {
    hide Registry, StoreCode, CodeHashOf;
    UploadExact(H, lim, store, codes, b, true, gas);
    if k :| 0 <= k < |codes| && CodeHashOf(H, codes[k]) == CodeHashOf(H, b) {
      assert CodeId(k) == CodeId(i);
    }
  }
}
