/** Stored code through the engine: exactly when a call or a creation is accepted, and what it leaves. */
module StoredCode {
  import opened Bytes
  import opened Hashing
  import opened ContractTypes
  import opened ContractStore
  import opened MapSum
  import opened WasmHost
  import opened NativeToken
  import opened Engine
  import World

  /** At most 256 changes, charged at most a mebibyte, that leave at most 64 KiB of values written. */
  ghost predicate WithinBudget(cs: seq<HostCall>) {
    |cs| <= 256 && Sizes(cs) <= 1_048_576 && Sum(Lens(Patch(map[], cs))) <= 65_536
  }

  // ---- Events ----

  /** `events` are what decodes among the raw events, in order. */
  ghost predicate Surfaced(raw: seq<Bytes>, events: seq<ContractEvent>) { exists ps: seq<nat> :: SurfacedAt(raw, events, ps) }

  predicate SurfacedAt(raw: seq<Bytes>, events: seq<ContractEvent>, ps: seq<nat>) {
    && |ps| == |events|
    && (forall k | 0 <= k < |ps| :: ps[k] < |raw| && DecodeEvent(raw[ps[k]]) == Success(events[k]))
    && (forall j, k | 0 <= j < k < |ps| :: ps[j] < ps[k])
    && (forall i | 0 <= i < |raw| :: i in ps <==> DecodeEvent(raw[i]).Success?)
  }

  lemma {:induction false} SurfaceExact(raw: seq<Bytes>) returns (ps: seq<nat>)
    ensures SurfacedAt(raw, Surface(raw), ps)
  {
    hide DecodeEvent;
    if raw == [] {
      ps := [];
    } else {
      var n := |raw| - 1;
      var front := raw[..n];
      ps := SurfaceExact(front);
      if DecodeEvent(raw[n]).Success? {
        ps := ps + [n];
      }
    }
  }

  lemma IsSurfaced(raw: seq<Bytes>)
    ensures Surfaced(raw, Surface(raw))
  {
    hide SurfacedAt, Surface;
    var ps := SurfaceExact(raw);
  }

  // ---- One run ----

  /** A run on a fresh host is harvested exactly within the budget, and then leaves the key space patched by its calls. */
  lemma RunHarvest(store: Store, sender: u64, height: u64, id: Id, cs: seq<HostCall>, prior: seq<WriteOp>)
    requires DistinctKeys(prior) && forall w | w in prior :: !IsStateKey(w.key)
    ensures var h := NewHost(store, sender, height, id).Run(cs);
            var r := Harvest(prior, h.exceeded, SomeLog(h));
            && (r.Success? <==> WithinBudget(cs)) && (r.Failure? ==> r == Failure(StorageLimitExceeded))
            && (r.Success? ==>
                  && Snapshot(Apply(store, r.value), id) == Patch(Snapshot(store, id), cs)
                  && (forall o: Id | o != id :: Snapshot(Apply(store, r.value), o) == Snapshot(store, o))
                  && (forall k | !IsStateKey(k) :: Lookup(Apply(store, r.value), k) == Lookup(Apply(store, prior), k)))
  {
    hide Snapshot, Patch, Harvest, Apply, Sizes, Lens, Host.Run, IsStateKey;
    var start := NewHost(store, sender, height, id);
    var h := start.Run(cs);
    World.FreshHost(store, sender, height, id);
    MarkedExactly(start, cs);
    HarvestExact(h, prior);
    if !h.exceeded {
      WrittenIsPatch(start, cs);
      HostIsPatchedMap(start, cs);
    }
    if Harvest(prior, h.exceeded, SomeLog(h)).Success? {
      HarvestIsolated(store, h, prior, Harvest(prior, h.exceeded, SomeLog(h)).value);
    }
  }

  // ---- Calls ----

  /** The contract on record runs stored code. */
  predicate RunsStored(store: Store, id: Id) {
    && KeyContract(id) in store && DecodeMeta(store[KeyContract(id)]).Success?
    && DecodeMeta(store[KeyContract(id)]).value.codeId != AUGE20_CODE_ID && !DecodeMeta(store[KeyContract(id)]).value.isAuge20
  }

  function CodeOf(store: Store, id: Id): u64
    requires RunsStored(store, id)
  {
    DecodeMeta(store[KeyContract(id)]).value.codeId
  }

  /**
    A call of stored code is accepted exactly when the code is there, the gas covers the base cost, the fuel lasts, the code
    does not trap and its changes stay within the budget. Then its key space is patched by its calls in order, its decodable
    events come out in order, and nothing else changes. A refused call reports what stopped it.
   */
  lemma CallExact(lim: Limits, store: Store, sender: u64, id: Id, data: Bytes, height: u64, gas: u64, g: Guest, fuel: Fuel)
    requires RunsStored(store, id)
    ensures var r := ExecuteContract(lim, store, sender, id, data, height, gas, g, fuel);
            var code := CodeOf(store, id);
            && (KeyCode(code) !in store ==> r == Failure(CodeNotFound))
            && (KeyCode(code) in store && !HasCode(store, code) ==> r == Failure(InvalidData))
            && (HasCode(store, code) && (gas < 5_000 || fuel.Exhausted?) ==> r == Failure(OutOfGas))
            && (HasCode(store, code) && gas >= 5_000 && fuel.Spent? && g.traps ==> r == Failure(ExecutionFailed))
            && (HasCode(store, code) && gas >= 5_000 && fuel.Spent? && !g.traps && !WithinBudget(g.calls) ==> r == Failure(StorageLimitExceeded))
            && (HasCode(store, code) && gas >= 5_000 && fuel.Spent? && !g.traps && WithinBudget(g.calls) ==>
                  && r.Success? && r.value.gasUsed == 5_000 + fuel.units && Surfaced(g.events, r.value.events)
                  && var after := Apply(store, r.value.writes);
                     && Snapshot(after, id) == Patch(Snapshot(store, id), g.calls)
                     && (forall o: Id | o != id :: Snapshot(after, o) == Snapshot(store, o))
                     && (forall k | !IsStateKey(k) :: Lookup(after, k) == Lookup(store, k)))
  {
    hide Snapshot, NewHost, Harvest, DecodeMeta, DecodeCode, KeyContract, KeyCode, ExecuteNative, ExecuteToken, Surface, Patch, IsStateKey,
         WithinBudget, Surfaced, Host.Run;
    RunHarvest(store, sender, height, id, g.calls, []);
    IsSurfaced(g.events);
    assert Apply(store, []) == store;
  }

  // ---- Creations ----

  /** The same for a creation with stored code, whose id must be new; it also leaves the metadata record. */
  lemma CreateExact(H: Digest, store: Store, sender: u64, codeId: u64, data: Bytes, height: u64, gas: u64, g: Guest, fuel: Fuel)
    requires codeId != AUGE20_CODE_ID
    ensures var r := CreateContract(H, store, sender, codeId, data, height, gas, g, fuel);
            var id := ContractIdOf(H, sender, codeId, data);
            && (KeyCode(codeId) !in store ==> r == Failure(CodeNotFound))
            && (KeyCode(codeId) in store && !HasCode(store, codeId) ==> r == Failure(InvalidData))
            && (HasCode(store, codeId) && KeyContract(id) in store ==> r == Failure(DuplicateContract))
            && (HasCode(store, codeId) && KeyContract(id) !in store ==>
                  && (gas < 10_000 || fuel.Exhausted? ==> r == Failure(OutOfGas))
                  && (gas >= 10_000 && fuel.Spent? && g.traps ==> r == Failure(ExecutionFailed))
                  && (gas >= 10_000 && fuel.Spent? && !g.traps && !WithinBudget(g.calls) ==> r == Failure(StorageLimitExceeded))
                  && (gas >= 10_000 && fuel.Spent? && !g.traps && WithinBudget(g.calls) ==> CreatedWith(store, r, id, sender, codeId, height, g, fuel)))
  {
    hide Snapshot, NewHost, Harvest, DecodeCode, KeyContract, KeyCode, CreateToken, Surface, Patch, IsStateKey, WithinBudget, Surfaced, Host.Run,
         ContractIdOf, EncodeMeta, Apply;
    var id := ContractIdOf(H, sender, codeId, data);
    var m := ContractMeta(id, sender, codeId, false, 0, height);
    var prior := [WriteOp(KeyContract(id), Some(EncodeMeta(m)))];
    SystemKeysOutside(0, id, id, 0);
    RunHarvest(store, sender, height, id, g.calls, prior);
    IsSurfaced(g.events);
    OneRecord(store, prior[0]);
  }

  lemma OneRecord(store: Store, w: WriteOp)
    requires w.value.Some?
    ensures Apply(store, [w]) == store[w.key := w.value.value]
  {
    var ws := [w];
    assert ws[..0] == [];
  }

  /** What an accepted creation leaves: the record, the patched key space and nothing else, and the events in order. */
  ghost predicate CreatedWith(store: Store, r: Result<(Id, ApplyOutcome), ContractError>, id: Id, sender: u64, codeId: u64, height: u64, g: Guest, fuel: Fuel)
    requires fuel.Spent?
  {
    && r.Success? && r.value.0 == id && r.value.1.gasUsed == 10_000 + fuel.units
    && |r.value.1.events| > 0 && r.value.1.events[|r.value.1.events| - 1] == ContractCreated(id, sender, codeId)
    && Surfaced(g.events, r.value.1.events[..|r.value.1.events| - 1])
    && var after := Apply(store, r.value.1.writes);
       && Lookup(after, KeyContract(id)) == Some(EncodeMeta(ContractMeta(id, sender, codeId, false, 0, height)))
       && Snapshot(after, id) == Patch(Snapshot(store, id), g.calls)
       && (forall o: Id | o != id :: Snapshot(after, o) == Snapshot(store, o))
       && (forall k | !IsStateKey(k) && k != KeyContract(id) :: Lookup(after, k) == Lookup(store, k))
  }
}
