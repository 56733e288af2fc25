/** The code registry inside the store: ids, records and the hash index, over every run of the engine. */
module CodeStore {
  import opened Bytes
  import opened Hashing
  import opened ContractTypes
  import opened ContractStore
  import opened WasmHost
  import opened Auge20
  import opened TokenLedger
  import opened NativeToken
  import opened Engine
  import opened World

  /** The id of the `i`-th distinct upload; id 1 is reserved for the built-in token. */
  function CodeId(i: nat): nat { i + 2 }

  function RecordOf(H: Digest, codes: seq<Bytes>, id: u64): Option<Bytes> {
    if 2 <= id < CodeId(|codes|) then Some(EncodeCode(CodeRecord(id, CodeHashOf(H, codes[id - 2]), codes[id - 2]))) else None
  }

  ghost predicate HashEntry(H: Digest, store: Store, codes: seq<Bytes>, h: Id) {
    match Lookup(store, KeyCodeHash(h))
    case None => forall i | 0 <= i < |codes| :: CodeHashOf(H, codes[i]) != h
    case Some(v) => exists i | 0 <= i < |codes| :: CodeHashOf(H, codes[i]) == h && CodeId(i) < U64_END && v == U64(CodeId(i))
  }

  /** The store's code keys are exactly the list of distinct uploads, its ids and its hash index. */
  ghost predicate Registry(H: Digest, lim: Limits, store: Store, codes: seq<Bytes>) {
    && CodeId(|codes|) < U64_END && NextCodeId(store) == CodeId(|codes|)
    && (forall i | 0 <= i < |codes| :: |codes[i]| <= lim.maxCodeSize)
    && (forall i, j | 0 <= i < j < |codes| :: CodeHashOf(H, codes[i]) != CodeHashOf(H, codes[j]))
    && (forall id: u64 :: Lookup(store, KeyCode(id)) == RecordOf(H, codes, id))
    && (forall h: Id :: HashEntry(H, store, codes, h))
  }

  /** Following the hash index leads to the record that carries the hash, and back. */
  lemma IndexInverse(H: Digest, lim: Limits, store: Store, codes: seq<Bytes>, i: nat)
    requires Registry(H, lim, store, codes) && i < |codes|
    ensures Lookup(store, KeyCodeHash(CodeHashOf(H, codes[i]))) == Some(U64(CodeId(i)))
    ensures Lookup(store, KeyCode(CodeId(i))).Some?
    ensures DecodeCode(store[KeyCode(CodeId(i))]) == Success(CodeRecord(CodeId(i), CodeHashOf(H, codes[i]), codes[i]))
  {
    hide DecodeCode, EncodeCode;
    assert HashEntry(H, store, codes, CodeHashOf(H, codes[i]));
    CodeRoundTrip(CodeRecord(CodeId(i), CodeHashOf(H, codes[i]), codes[i]));
  }

  /** Uploading a known hash returns its id and writes nothing; a new hash takes the next id and, while the counter has
      another one to give, extends the registry. */
  lemma UploadExact(H: Digest, lim: Limits, store: Store, codes: seq<Bytes>, wasm: Bytes, valid: bool, gas: u64)
    requires Registry(H, lim, store, codes)
    ensures var r := StoreCode(H, lim, store, wasm, valid, gas);
            && (r.Success? <==> gas >= 50_000 && |wasm| <= lim.maxCodeSize && valid)
            && (forall i | 0 <= i < |codes| && r.Success? && CodeHashOf(H, codes[i]) == CodeHashOf(H, wasm) ::
                  r.value.0 == CodeId(i) && r.value.1 == ApplyOutcome(50_000, [], []))
            && (r.Success? && (forall i | 0 <= i < |codes| :: CodeHashOf(H, codes[i]) != CodeHashOf(H, wasm)) ==>
                  && r.value.0 == CodeId(|codes|) && r.value.1.gasUsed == 50_000
                  && r.value.1.events == [CodeStored(CodeId(|codes|), CodeHashOf(H, wasm))]
                  && (CodeId(|codes|) + 1 < U64_END <==> Registry(H, lim, Apply(store, r.value.1.writes), codes + [wasm])))
  {
    hide EncodeCode, U64, KeyCode, KeyCodeHash;
    var r := StoreCode(H, lim, store, wasm, valid, gas);
    var hash := CodeHashOf(H, wasm);
    assert HashEntry(H, store, codes, hash);
    if r.Success? {
      if i :| 0 <= i < |codes| && CodeHashOf(H, codes[i]) == hash {
        U64RoundTrip(CodeId(i));
      } else if CodeId(|codes|) + 1 < U64_END {
        NewCode(H, lim, store, codes, wasm);
        ThreeWrites(store, r.value.1.writes);
      }
    }
  }

  lemma ThreeWrites(m: Store, ws: seq<WriteOp>)
    requires |ws| == 3 && forall i | 0 <= i < 3 :: ws[i].value.Some?
    ensures Apply(m, ws) == m[ws[0].key := ws[0].value.value][ws[1].key := ws[1].value.value][ws[2].key := ws[2].value.value]
  {
    assert ws[..2][..1] == ws[..1] && ws[..1][..0] == [];
    assert Apply(m, ws[..1]) == ApplyOne(m, ws[0]);
    assert Apply(m, ws[..2]) == ApplyOne(Apply(m, ws[..1]), ws[1]);
  }

  lemma NewCode(H: Digest, lim: Limits, store: Store, codes: seq<Bytes>, wasm: Bytes)
    requires Registry(H, lim, store, codes) && CodeId(|codes|) + 1 < U64_END && |wasm| <= lim.maxCodeSize
    requires forall i | 0 <= i < |codes| :: CodeHashOf(H, codes[i]) != CodeHashOf(H, wasm)
    ensures var id, hash := CodeId(|codes|), CodeHashOf(H, wasm);
            Registry(H, lim, store[KeyCode(id) := EncodeCode(CodeRecord(id, hash, wasm))]
                                  [KeyCodeHash(hash) := U64(id)][NEXT_CODE_ID := U64(id + 1)], codes + [wasm])
  {
    hide EncodeCode, U64, KeyCode, KeyCodeHash;
    var id, hash, now := CodeId(|codes|), CodeHashOf(H, wasm), codes + [wasm];
    var after := store[KeyCode(id) := EncodeCode(CodeRecord(id, hash, wasm))][KeyCodeHash(hash) := U64(id)][NEXT_CODE_ID := U64(id + 1)];
    U64RoundTrip(id + 1);
    assert |U64(id + 1)| == 8;
    forall c: u64
      ensures Lookup(after, KeyCode(c)) == RecordOf(H, now, c)
    {
      CodeKeysApart(c, id, hash, hash);
      assert Lookup(store, KeyCode(c)) == RecordOf(H, codes, c);
    }
    forall h: Id
      ensures HashEntry(H, after, now, h)
    {
      CodeKeysApart(id, id, h, hash);
      CodeKeysApart(id, id, h, h);
      assert HashEntry(H, store, codes, h);
      if h == hash {
        assert CodeHashOf(H, now[|codes|]) == h;
      } else if i :| 0 <= i < |codes| && CodeHashOf(H, codes[i]) == h && Lookup(store, KeyCodeHash(h)) == Some(U64(CodeId(i))) {
        assert now[i] == codes[i];
      }
    }
  }

  /** Past its last value the counter starts again at zero, from where the second upload takes the token's own code id. */
  lemma CodeCounterWraps(H: Digest, lim: Limits, store: Store, a: Bytes, b: Bytes, c: Bytes)
    requires NextCodeId(store) == U64_END - 1 && |a| <= lim.maxCodeSize && |b| <= lim.maxCodeSize && |c| <= lim.maxCodeSize
    requires KeyCodeHash(CodeHashOf(H, a)) !in store && KeyCodeHash(CodeHashOf(H, b)) !in store && KeyCodeHash(CodeHashOf(H, c)) !in store
    requires CodeHashOf(H, a) != CodeHashOf(H, b) && CodeHashOf(H, b) != CodeHashOf(H, c) && CodeHashOf(H, a) != CodeHashOf(H, c)
    ensures var first := StoreCode(H, lim, store, a, true, GAS_STORE);
            first.Success? && first.value.0 == U64_END - 1
            && var second := StoreCode(H, lim, Apply(store, first.value.1.writes), b, true, GAS_STORE);
               second.Success? && second.value.0 == 0
               && var third := StoreCode(H, lim, Apply(Apply(store, first.value.1.writes), second.value.1.writes), c, true, GAS_STORE);
                  third.Success? && third.value.0 == AUGE20_CODE_ID
  {
    hide CodeHashOf, Apply, StoreCode, NextCodeId, KeyCodeHash;
    var s1 := StepUpload(H, lim, store, a, b, c);
    var s2 := StepUpload(H, lim, s1, b, c, c);
    NewId(H, lim, s2, c);
  }

  lemma NewId(H: Digest, lim: Limits, store: Store, a: Bytes)
    requires |a| <= lim.maxCodeSize && KeyCodeHash(CodeHashOf(H, a)) !in store
    ensures var r := StoreCode(H, lim, store, a, true, GAS_STORE); r.Success? && r.value.0 == NextCodeId(store)
  {
    hide EncodeCode, CodeHashOf, NextCodeId, KeyCodeHash;
  }

  /** One upload of new code: what it writes, and that two other hashes stay unknown if they were. */
  lemma StepUpload(H: Digest, lim: Limits, store: Store, a: Bytes, b: Bytes, c: Bytes) returns (after: Store)
    requires |a| <= lim.maxCodeSize && KeyCodeHash(CodeHashOf(H, a)) !in store
    requires KeyCodeHash(CodeHashOf(H, b)) !in store && KeyCodeHash(CodeHashOf(H, c)) !in store
    requires CodeHashOf(H, a) != CodeHashOf(H, b) && CodeHashOf(H, a) != CodeHashOf(H, c)
    ensures var r := StoreCode(H, lim, store, a, true, GAS_STORE);
            r.Success? && r.value.0 == NextCodeId(store) && after == Apply(store, r.value.1.writes)
    ensures NextCodeId(after) == (NextCodeId(store) + 1) % U64_END
    ensures KeyCodeHash(CodeHashOf(H, b)) !in after && KeyCodeHash(CodeHashOf(H, c)) !in after
  {
    hide EncodeCode, CodeHashOf, U64, KeyCode, KeyCodeHash, Apply;
    var r := StoreCode(H, lim, store, a, true, GAS_STORE);
    var id, next := NextCodeId(store), (NextCodeId(store) + 1) % U64_END;
    after := Apply(store, r.value.1.writes);
    ThreeWrites(store, r.value.1.writes);
    U64RoundTrip(next);
    assert |U64(next)| == 8;
    CodeKeysApart(id, id, CodeHashOf(H, a), CodeHashOf(H, b));
    CodeKeysApart(id, id, CodeHashOf(H, a), CodeHashOf(H, c));
    CodeKeysApart(id, id, CodeHashOf(H, b), CodeHashOf(H, c));
    CodeKeysApart(id, id, CodeHashOf(H, c), CodeHashOf(H, b));
  }

  // ---- Whole runs ----

  predicate IsCodeKey(k: Bytes) { CODE <= k || k == NEXT_CODE_ID }

  /** No create or execute call touches a code key. */
  lemma OthersKeepCode(H: Digest, lim: Limits, store: Store, tokens: Tokens, c: Call, k: Bytes)
    requires Inv(store, tokens) && !c.Upload? && IsCodeKey(k)
    ensures Lookup(After(H, lim, store, c), k) == Lookup(store, k)
  {
    hide Snapshot, Represents, DecodeMeta, EncodeMeta, DecodeCall, CheckInit, NewHost, Instantiate, Auge20.Execute, Harvest, Surface,
         KeyContract, ContractIdOf, ExecuteNative, DecodeCode, KeyCode, Inv, Apply;
    var r := Perform(H, lim, store, c);
    if r.Success? {
      assert !IsStateKey(k) by { assert k[0] != STATE[0]; }
      match c
      case Create(sender, codeId, data, height, gas, g, fuel) =>
        var id := ContractIdOf(H, sender, codeId, data);
        var m := NewMeta(id, sender, codeId, height);
        NotContractKey(id, k);
        FreshHost(store, sender, height, id);
        if codeId == AUGE20_CODE_ID {
          var h := Instantiate(NewHost(store, sender, height, id), data).value;
          InstantiateFrame(NewHost(store, sender, height, id), data);
          HarvestKeeps(store, h, [], r.value.writes[..|r.value.writes| - 1], k);
          AppendKeeps(store, Harvest([], h.exceeded, SomeLog(h)).value, MetaWrite(m), k);
        } else {
          HarvestKeeps(store, NewHost(store, sender, height, id).Run(g.calls), [MetaWrite(m)], r.value.writes, k);
        }
      case Invoke(sender, id, data, height, gas, g, fuel) =>
        InvKnows(store, tokens, id);
        FreshHost(store, sender, height, id);
        var h := NewHost(store, sender, height, id);
        if id in tokens {
          ExecuteFrame(h, data);
          HarvestKeeps(store, Auge20.Execute(h, data).value.0, [], r.value.writes, k);
        } else {
          HarvestKeeps(store, h.Run(g.calls), [], r.value.writes, k);
        }
    }
  }

  lemma InvKnows(store: Store, tokens: Tokens, id: Id)
    requires Inv(store, tokens) && KeyContract(id) in store
    ensures var m := DecodeMeta(store[KeyContract(id)]);
            m.Success? && m.value.contractId == id && !m.value.isAuge20 && (m.value.codeId == AUGE20_CODE_ID <==> id in tokens)
  {
    assert Sound(store, tokens, id);
  }

  lemma NotContractKey(id: Id, k: Bytes)
    requires IsCodeKey(k)
    ensures k != KeyContract(id) && !IsStateKey(KeyContract(id))
  {
    SystemKeysOutside(0, id, id, 0);
    assert KeyContract(id)[0] == 99 && KeyContract(id)[2] == 110;
  }

  lemma HarvestKeeps(store: Store, h: Host, prior: seq<WriteOp>, ws: seq<WriteOp>, k: Bytes)
    requires h.Valid() && h.base == Snapshot(store, h.id) && !IsStateKey(k)
    requires |prior| <= 1 && forall w | w in prior :: !IsStateKey(w.key) && w.key != k
    requires Harvest(prior, h.exceeded, SomeLog(h)) == Success(ws)
    ensures Lookup(Apply(store, ws), k) == Lookup(store, k)
  {
    HarvestIsolated(store, h, prior, ws);
    ApplyUntouched(store, prior, k);
  }

  lemma AppendKeeps(store: Store, ws: seq<WriteOp>, w: WriteOp, k: Bytes)
    requires w.key != k
    ensures (ws + [w])[..|ws + [w]| - 1] == ws
    ensures Lookup(Apply(store, ws + [w]), k) == Lookup(Apply(store, ws), k)
  {
    assert (ws + [w])[..|ws|] == ws;
  }

  lemma InstantiateFrame(h: Host, data: Bytes)
    requires h.Valid()
    ensures Instantiate(h, data).Done? ==>
              var g := Instantiate(h, data).value; g.Valid() && g.base == h.base && g.id == h.id
  {
    hide ParseGuestInit, EncodeState, U64;
  }

  lemma ExecuteFrame(h: Host, data: Bytes)
    requires h.Valid()
    ensures Auge20.Execute(h, data).Done? ==>
              var g := Auge20.Execute(h, data).value.0; g.Valid() && g.base == h.base && g.id == h.id
  {
    hide DecodeCall, ReadConfig, ReadAmount, U64, ReadU8;
  }

  /** The list of distinct uploads a run has accepted. */
  ghost function Uploads(H: Digest, lim: Limits, calls: seq<Call>): seq<Bytes>
    decreases |calls|
  {
    if calls == [] then []
    else
      var front, c := calls[..|calls| - 1], calls[|calls| - 1];
      var codes := Uploads(H, lim, front);
      if c.Upload? && Perform(H, lim, Run(H, lim, front).store, c).Success?
         && (forall i | 0 <= i < |codes| :: CodeHashOf(H, codes[i]) != CodeHashOf(H, c.wasm))
      then codes + [c.wasm] else codes
  }

  lemma SameRegistry(H: Digest, lim: Limits, a: Store, b: Store, codes: seq<Bytes>)
    requires Registry(H, lim, a, codes) && forall k | IsCodeKey(k) :: Lookup(b, k) == Lookup(a, k)
    ensures Registry(H, lim, b, codes)
  {
    hide EncodeCode;
    forall c: u64
      ensures Lookup(b, KeyCode(c)) == RecordOf(H, codes, c)
    {
      assert IsCodeKey(KeyCode(c));
      assert Lookup(a, KeyCode(c)) == RecordOf(H, codes, c);
    }
    forall h: Id
      ensures HashEntry(H, b, codes, h)
    {
      assert CODE <= KeyCodeHash(h);
      assert IsCodeKey(KeyCodeHash(h)) && HashEntry(H, a, codes, h);
    }
    assert IsCodeKey(NEXT_CODE_ID);
  }

  /** Over every run whose distinct accepted uploads fit the counter, whatever else it contains, the code keys hold exactly
      those uploads. */
  lemma {:induction false} RunRegistry(H: Digest, lim: Limits, calls: seq<Call>)
    requires CodeId(|Uploads(H, lim, calls)|) < U64_END
    ensures Registry(H, lim, Run(H, lim, calls).store, Uploads(H, lim, calls))
  {
    hide Registry, Perform, StoreCode, Apply, Inv, Advance;
    if calls == [] {
      EmptyRegistry(H, lim);
    } else {
      var front, c := calls[..|calls| - 1], calls[|calls| - 1];
      RunRegistry(H, lim, front);
      RunRefines(H, lim, front);
      var w, codes := Run(H, lim, front), Uploads(H, lim, front);
      if c.Upload? {
        UploadStep(H, lim, w.store, codes, c);
      } else {
        forall k | IsCodeKey(k)
          ensures Lookup(After(H, lim, w.store, c), k) == Lookup(w.store, k)
        {
          OthersKeepCode(H, lim, w.store, w.tokens, c, k);
        }
        SameRegistry(H, lim, w.store, After(H, lim, w.store, c), codes);
      }
    }
  }

  lemma EmptyRegistry(H: Digest, lim: Limits)
    ensures Registry(H, lim, map[], [])
  {
  }

  lemma UploadStep(H: Digest, lim: Limits, store: Store, codes: seq<Bytes>, c: Call)
    requires Registry(H, lim, store, codes) && c.Upload?
    requires (forall i | 0 <= i < |codes| :: CodeHashOf(H, codes[i]) != CodeHashOf(H, c.wasm)) && Perform(H, lim, store, c).Success? ==>
               CodeId(|codes|) + 1 < U64_END
    ensures Registry(H, lim, After(H, lim, store, c),
              if Perform(H, lim, store, c).Success? && (forall i | 0 <= i < |codes| :: CodeHashOf(H, codes[i]) != CodeHashOf(H, c.wasm))
              then codes + [c.wasm] else codes)
  {
    hide Registry, StoreCode;
    UploadExact(H, lim, store, codes, c.wasm, c.valid, c.gas);
    assert Apply(store, []) == store;
  }
}
