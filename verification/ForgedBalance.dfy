/** A block on which the tokens' conservation fails: the guard on foreign values for a token's cells is needed. */
module ForgedBalance {
  import opened Bytes
  import opened Hashing
  import opened ContractTypes
  import opened ContractStore
  import opened WriteSort
  import opened MapSum
  import opened WasmHost
  import opened Auge20
  import opened TokenLedger
  import opened NativeToken
  import opened Engine
  import opened Locality
  import World
  import CodeStore
  import opened BlockOverlay
  import opened BlockSnapshot
  import opened BlockRuns

  // ---- What the token sees ----

  /** The ledger with a balance nobody gave. */
  function Forged(l: Ledger, a: u64, v: u64): Ledger { l.(balances := l.balances[a := v]) }

  /** In every order the token reads the other contract's value as the balance of an account without a cell. */
  lemma ForgedCell(st: Storage, cs: seq<HostCall>, id: Id, o: Id, a: u64, v: u64, ks: seq<Bytes>)
    requires o != id && Run(cs) == map[KeyState(o, BalanceKey(id, a)) := Some(U64(v))] && BalanceKey(id, a) !in Wanted(st, cs, id)
    requires Sliceable(Scanned(st, cs, id)) && IsOrder(Scanned(st, cs, id), ks) && Long(Scanned(st, cs, id), ks)
    ensures Lookup(Sliced(Scanned(st, cs, id), ks), BalanceKey(id, a)) == Some(U64(v))
    ensures forall x | x != BalanceKey(id, a) :: Lookup(Sliced(Scanned(st, cs, id), ks), x) == Lookup(Wanted(st, cs, id), x)
  {
    hide Scanned, Wanted, Sliced, Run, Get, U64, BalanceKey, KeyState;
    var x := BalanceKey(id, a);
    var key, m := KeyState(o, x), Scanned(st, cs, id);
    OwnKey(o, x);
    ScannedLive(st, cs, id, key);
    SlicedAt(m, ks, x);
    ScannedAt(st, cs, id, x);
    WantedAt(st, cs, id, x);
    var k :| k in ks && k[PREFIX_LEN..] == x && Lookup(Sliced(m, ks), x) == Some(m[k]);
    ScannedFrom(st, cs, id, k);
    if k != key {
      UnderPrefix(id, k);
    }
    forall y | y != x
      ensures Lookup(Sliced(m, ks), y) == Lookup(Wanted(st, cs, id), y)
    {
      LocalRight(st, cs, id, y, ks);
    }
  }

  lemma ForgedLedger(base: Store, own: Store, id: Id, l: Ledger, a: u64, v: u64)
    requires Represents(own, id, l) && Lookup(base, BalanceKey(id, a)) == Some(U64(v))
    requires forall x | x != BalanceKey(id, a) :: Lookup(base, x) == Lookup(own, x)
    ensures Represents(base, id, Forged(l, a, v))
  {
    hide EncodeState, U64, TokenKey, SupplyKey, BalanceKey;
    CellsApart(id, a, a);
    var m := l.balances[a := v];
    forall b: u64
      ensures BalanceCell(base, id, b, m)
    {
      CellsApart(id, a, b);
      assert BalanceCell(own, id, b, l.balances);
      assert b != a ==> Lookup(base, BalanceKey(id, b)) == Lookup(own, BalanceKey(id, b));
    }
  }

  // ---- What the token does with it ----

  predicate Affordable(f: Ledger, from: u64, to: u64, amount: u64) {
    0 < amount <= f.Balance(from) && Value(Move(f.balances, from, to, amount), to) < U64_END
  }

  function AfterTransfer(f: Ledger, from: u64, to: u64, amount: u64): Ledger
    requires Affordable(f, from, to, amount)
  {
    f.(balances := Move(f.balances, from, to, amount))
  }

  /** Conserving or not, the ledger in the cells is what the transfer moves. */
  lemma TransferRuns(h: Host, f: Ledger, to: u64, amount: u64)
    requires h.Valid() && Roomy(h, 2) && Represents(h.View(), h.id, f) && Affordable(f, h.sender, to, amount)
    ensures var r := ExecuteTransfer(h, to, amount);
            && r.Done? && r.value.1 == TokenTransferred(h.id, h.sender, to, amount)
            && var g := r.value.0;
               && g.Valid() && g.id == h.id && g.base == h.base && !g.exceeded && Charged(g) && g.bytes <= MAX_LOG_BYTES
               && Represents(g.View(), h.id, AfterTransfer(f, h.sender, to, amount))
  {
    hide ReadAmount, WriteAmount, BalanceKey, Represents;
    ReadBalance(h, f, h.sender);
    var rest := f.Balance(h.sender) - amount;
    BalancesFit(h.View(), h.id, f);
    WriteBalance(h, f, h.sender, rest);
    var g, m := WriteAmount(h, BalanceKey(h.id, h.sender), rest), f.(balances := f.balances[h.sender := rest]);
    ReadBalance(g, m, to);
    WriteBalance(g, m, to, m.Balance(to) + amount);
  }

  /** The sender's cell is among what is written. */
  lemma TransferWrites(h: Host, to: u64, amount: u64)
    requires h.Valid() && ExecuteTransfer(h, to, amount).Done? && !ExecuteTransfer(h, to, amount).value.0.exceeded
    ensures BalanceKey(h.id, h.sender) in ExecuteTransfer(h, to, amount).value.0.written
  {
    hide ReadAmount, BalanceKey, U64;
  }

  lemma ExecuteRuns(h: Host, f: Ledger, data: Bytes, to: u64, amount: u64)
    requires h.Valid() && Roomy(h, 2) && Represents(h.View(), h.id, f) && |f.config.name| <= MAX_NAME && |f.config.symbol| <= MAX_NAME
    requires DecodeCall(data) == Success(Transfer(to, amount))
    ensures Auge20.Execute(h, data) == ExecuteTransfer(h, to, amount)
  {
    hide ReadConfig, ReadAmount, ExecuteTransfer, DecodeCall, Represents, ReadU8;
    ReadLedgerConfig(h, f);
    ReadSupply(h, f);
    CallLength(data);
  }

  /** Written over the cells the token really has, the result holds the same ledger: the forged balance has become real. */
  lemma ForgeryPersists(view: Store, h: Host, f: Ledger, to: u64, amount: u64, ws: seq<WriteOp>)
    requires h.Valid() && Roomy(h, 2) && Represents(h.View(), h.id, f) && Affordable(f, h.sender, to, amount)
    requires h.written == map[] && h.deleted == {}
    requires forall x | x != BalanceKey(h.id, h.sender) :: Lookup(h.base, x) == Lookup(Snapshot(view, h.id), x)
    requires ExecuteTransfer(h, to, amount).Done?
    requires var g := ExecuteTransfer(h, to, amount).value.0; Harvest([], g.exceeded, SomeLog(g)) == Success(ws)
    ensures Represents(Snapshot(Apply(view, ws), h.id), h.id, AfterTransfer(f, h.sender, to, amount))
  {
    hide Snapshot, Represents, ExecuteTransfer, Harvest, BalanceKey, AfterTransfer, Apply;
    TransferRuns(h, f, to, amount);
    TransferWrites(h, to, amount);
    var g := ExecuteTransfer(h, to, amount).value.0;
    var own := g.(base := Snapshot(view, h.id));
    HarvestLocal(g, Snapshot(view, h.id), []);
    HarvestIsolated(view, own, [], ws);
    forall x | IsCell(h.id, x)
      ensures Lookup(g.View(), x) == Lookup(own.View(), x)
    {
    }
    RepresentsCells(g.View(), own.View(), h.id, AfterTransfer(f, h.sender, to, amount));
  }

  lemma ForgedSum(l: Ledger, a: u64, v: u64, to: u64, amount: u64)
    requires l.Good() && a !in l.balances && 0 < amount <= v && l.supply + v < U64_END
    ensures Affordable(Forged(l, a, v), a, to, amount)
    ensures var m := AfterTransfer(Forged(l, a, v), a, to, amount); Sum(m.balances) == m.supply + v
  {
    hide Utf8, Sum;
    SumUpdate(l.balances, a, v);
    var f := Forged(l, a, v).balances;
    SumUpdate(f, a, v - amount);
    var g := f[a := v - amount];
    ValueBounded(l.balances, to);
    SumUpdate(g, to, Value(g, to) + amount);
  }

  // ---- The block ----

  /** One storage call of stored code comes out as one write under the code's own contract. */
  lemma StoredPut(H: Digest, lim: Limits, store: Store, tokens: World.Tokens, c: World.Call, x: Bytes, val: Bytes)
    requires World.Inv(store, tokens) && c.Invoke? && KeyContract(c.id) in store && c.id !in tokens
    requires c.gas >= GAS_TRANSFER && c.fuel.Spent? && c.guest == Guest([Put(x, val)], [], false) && |x| + |val| <= 1000
    requires DecodeMeta(store[KeyContract(c.id)]).Success? && HasCode(store, DecodeMeta(store[KeyContract(c.id)]).value.codeId)
    ensures World.Perform(H, lim, store, c).Success?
    ensures World.Perform(H, lim, store, c).value.writes == [WriteOp(KeyState(c.id, x), Some(val))]
  {
    hide Snapshot, NewHost, Harvest, DecodeMeta, DecodeCode, KeyContract, KeyCode, World.Inv, KeyState, ExecuteToken, ExecuteNative;
    CodeStore.InvKnows(store, tokens, c.id);
    var h := NewHost(store, c.sender, c.height, c.id);
    OneWrite(store, c.sender, c.height, c.id, x, val);
  }

  lemma OneWrite(store: Store, sender: u64, height: u64, id: Id, x: Bytes, val: Bytes)
    requires |x| + |val| <= 1000
    ensures var h := NewHost(store, sender, height, id).Run([Put(x, val)]);
            Harvest([], h.exceeded, SomeLog(h)) == Success([WriteOp(KeyState(id, x), Some(val))])
  {
    hide Snapshot, KeyState, Sort, ValueBytes, IsLog;
    var cs := [Put(x, val)];
    assert cs[..0] == [];
    var start := NewHost(store, sender, height, id);
    var h := start.Run(cs);
    assert start.Run(cs[..0]) == start && h == start.Step(Put(x, val));
    assert h.written == map[x := val] && h.deleted == {} && !h.exceeded && h.id == id;
    var w := WriteOp(KeyState(id, x), Some(val));
    OneEntry(h, x, val, SomeLog(h));
    assert [] + [w] == [w];
    SortOne(w);
  }

  lemma OneEntry(h: Host, x: Bytes, val: Bytes, log: seq<WriteOp>)
    requires IsLog(h, log) && h.written == map[x := val] && h.deleted == {}
    ensures log == [WriteOp(KeyState(h.id, x), Some(val))]
  {
    hide KeyState;
    var w := WriteOp(KeyState(h.id, x), Some(val));
    assert w == Entry(h, x) && x in h.written.Keys + h.deleted;
    forall i | 0 <= i < |log|
      ensures log[i] == w
    {
      assert log[i] in log;
    }
    assert |log| > 1 ==> log[0].key != log[1].key;
    assert w in log;
  }

  lemma SortOne(w: WriteOp)
    ensures Sort([w]) == [w] && ValueBytes([w]) == ValueLen(w)
  {
    var ws := [w];
    assert ws[..0] == [];
    assert Insert(w, []) == [w];
  }

  /** A stored contract's call that writes one cell, named like another contract's balance cell, and a transfer of that token. */
  predicate Scene(st: Storage, tokens: World.Tokens, c: World.Call, d: World.Call, v: u64, to: u64, amount: u64) {
    && c.Invoke? && d.Invoke? && c.id != d.id && d.id in tokens && c.id !in tokens
    && KeyContract(c.id) in Visible(st) && DecodeMeta(Visible(st)[KeyContract(c.id)]).Success?
    && HasCode(Visible(st), DecodeMeta(Visible(st)[KeyContract(c.id)]).value.codeId)
    && c.gas >= GAS_TRANSFER && c.fuel.Spent? && c.guest == Guest([Put(BalanceKey(d.id, d.sender), U64(v))], [], false)
    && DecodeCall(d.data) == Success(Transfer(to, amount)) && d.gas >= GAS_TRANSFER && d.fuel.Spent?
    && d.sender !in tokens[d.id].balances && 0 < amount <= v && tokens[d.id].supply + v < U64_END
  }

  /** The buffer after the first call. */
  function Planted(c: World.Call, d: World.Call, v: u64): seq<HostCall>
    requires c.Invoke? && d.Invoke?
  {
    [Put(KeyState(c.id, BalanceKey(d.id, d.sender)), U64(v))]
  }

  lemma FirstCall(H: Digest, lim: Limits, st: Storage, tokens: World.Tokens, c: World.Call, d: World.Call, v: u64, to: u64, amount: u64)
    requires World.Inv(Visible(st), tokens) && Scene(st, tokens, c, d, v, to, amount)
    ensures Ideal(H, lim, st, [c]) == Planted(c, d, v) && Guarded(H, lim, st, [c]) && InRange(H, lim, st, [c])
  {
    hide World.Inv, World.Perform, Visible, KeyContract, KeyState, DecodeMeta, HasCode, BalanceKey, U64, DecodeCall, BlockRuns.Target;
    var calls, none := [c], Ideal(H, lim, st, []);
    assert calls[..0] == [] && none == [] && Patch(Visible(st), none) == Visible(st);
    var x := BalanceKey(d.id, d.sender);
    assert |x| + |U64(v)| <= 1000 by { CellLength(d.id, d.sender, v); }
    StoredPut(H, lim, Visible(st), tokens, c, x, U64(v));
    TargetKnown(H, Visible(st), tokens, c);
    assert AsCalls([WriteOp(KeyState(c.id, x), Some(U64(v)))]) == Planted(c, d, v);
    assert forall k :: !Live(Run(none), k);
  }

  lemma CellLength(id: Id, a: u64, v: u64)
    ensures |BalanceKey(id, a)| + |U64(v)| <= 1000
  {
    hide U64;
  }

  lemma PlantedAlone(st: Storage, c: World.Call, d: World.Call, v: u64, l: Ledger)
    requires c.Invoke? && d.Invoke? && c.id != d.id && d.sender !in l.balances && Represents(Snapshot(Visible(st), d.id), d.id, l)
    ensures Run(Planted(c, d, v)) == map[KeyState(c.id, BalanceKey(d.id, d.sender)) := Some(U64(v))]
    ensures Wanted(st, Planted(c, d, v), d.id) == Snapshot(Visible(st), d.id)
    ensures BalanceKey(d.id, d.sender) !in Snapshot(Visible(st), d.id)
    ensures Sliceable(Scanned(st, Planted(c, d, v), d.id))
  {
    hide Visible, Snapshot, KeyState, U64, BalanceKey, Scanned, Scan;
    var key, cs := KeyState(c.id, BalanceKey(d.id, d.sender)), Planted(c, d, v);
    OnePut(key, U64(v));
    OwnKey(c.id, BalanceKey(d.id, d.sender));
    assert BalanceCell(Snapshot(Visible(st), d.id), d.id, d.sender, l.balances);
    LongKeys(st, cs, d.id);
    assert cs[..0] == [] && Patch(Visible(st), cs) == Visible(st)[key := U64(v)];
    forall y
      ensures Lookup(Wanted(st, cs, d.id), y) == Lookup(Snapshot(Visible(st), d.id), y)
    {
      if KeyState(d.id, y) == key {
        KeyStateInjective(d.id, y, c.id, BalanceKey(d.id, d.sender));
      }
      assert Lookup(Snapshot(Visible(st)[key := U64(v)], d.id), y) == Lookup(Visible(st)[key := U64(v)], KeyState(d.id, y));
      assert Lookup(Snapshot(Visible(st), d.id), y) == Lookup(Visible(st), KeyState(d.id, y));
    }
    SameLookups(Wanted(st, cs, d.id), Snapshot(Visible(st), d.id));
  }

  lemma PlantedKeeps(H: Digest, lim: Limits, st: Storage, tokens: World.Tokens, c: World.Call, d: World.Call, v: u64, to: u64, amount: u64)
    requires World.Inv(Visible(st), tokens) && Scene(st, tokens, c, d, v, to, amount)
    ensures World.Inv(Patch(Visible(st), Planted(c, d, v)), tokens)
  {
    hide World.Inv, World.Perform, Visible, Patch, Planted, Ideal, DecodeMeta, HasCode, KeyContract;
    FirstCall(H, lim, st, tokens, c, d, v, to, amount);
    IdealKeeps(H, lim, st, tokens, [c]);
    var calls := [c];
    assert calls[..0] == [];
  }

  /** A token call on a store that differs from a sound one in the token's own cells only is the token program's. */
  lemma TokenCallOn(H: Digest, lim: Limits, store: Store, seen: Store, tokens: World.Tokens, d: World.Call)
    requires World.Inv(store, tokens) && d.Invoke? && d.id in tokens && SameRecords(store, seen)
    ensures World.Perform(H, lim, seen, d) == ExecuteToken(seen, d.sender, d.id, d.data, d.height, d.gas, d.fuel)
    ensures DecodeCall(d.data).Success? && d.gas >= BaseGas(DecodeCall(d.data).value) ==> BlockRuns.Target(H, store, d) == Some(d.id)
  {
    hide World.Inv, SameRecords, ExecuteToken, DecodeMeta, KeyContract, DecodeCall;
    RecordsAgree(store, seen, d.id, 0);
    assert KeyContract(d.id) in store by { OnRecord(store, tokens, d.id); }
    CodeStore.InvKnows(store, tokens, d.id);
  }

  lemma OnRecord(store: Store, tokens: World.Tokens, id: Id)
    requires World.Inv(store, tokens) && id in tokens
    ensures KeyContract(id) in store && tokens[id].Good() && Represents(Snapshot(store, id), id, tokens[id])
  {
    assert World.Sound(store, tokens, id);
  }

  /** The transfer on a snapshot with the forged balance. */
  lemma SpendForged(seen: Store, view: Store, l: Ledger, d: World.Call, v: u64, to: u64, amount: u64)
    requires d.Invoke? && l.Good() && Represents(Snapshot(view, d.id), d.id, l)
    requires DecodeCall(d.data) == Success(Transfer(to, amount)) && d.gas >= GAS_TRANSFER && d.fuel.Spent?
    requires d.sender !in l.balances && 0 < amount <= v && l.supply + v < U64_END
    requires Lookup(Snapshot(seen, d.id), BalanceKey(d.id, d.sender)) == Some(U64(v))
    requires forall x | x != BalanceKey(d.id, d.sender) :: Lookup(Snapshot(seen, d.id), x) == Lookup(Snapshot(view, d.id), x)
    ensures var r := ExecuteToken(seen, d.sender, d.id, d.data, d.height, d.gas, d.fuel);
            && r.Success? && Affordable(Forged(l, d.sender, v), d.sender, to, amount)
            && Represents(Snapshot(Apply(view, r.value.writes), d.id), d.id, AfterTransfer(Forged(l, d.sender, v), d.sender, to, amount))
  {
    hide Snapshot, Represents, Auge20.Execute, ExecuteTransfer, Harvest, BalanceKey, AfterTransfer, Forged, Apply, DecodeCall, NewHost,
         Affordable, U64, Roomy, ExecuteToken, Ledger.Good, Charged;
    var id, f := d.id, Forged(l, d.sender, v);
    ForgedSum(l, d.sender, v, to, amount);
    ForgedLedger(Snapshot(seen, id), Snapshot(view, id), id, l, d.sender, v);
    World.FreshHost(seen, d.sender, d.height, id);
    var h := NewHost(seen, d.sender, d.height, id);
    assert h.written == map[] && h.deleted == {} by { BlankHost(seen, d.sender, d.height, id); }
    assert Roomy(h, 2) by { LessRoom(h); }
    assert |f.config.name| <= MAX_NAME && |f.config.symbol| <= MAX_NAME by { ForgedConfig(l, d.sender, v); }
    ExecuteRuns(h, f, d.data, to, amount);
    TransferRuns(h, f, to, amount);
    var g := ExecuteTransfer(h, to, amount).value.0;
    World.HarvestAccepts(g, []);
    HarvestedCall(seen, d, to, amount);
    ForgeryPersists(view, h, f, to, amount, Harvest([], g.exceeded, SomeLog(g)).value);
  }

  lemma BlankHost(store: Store, sender: u64, height: u64, id: Id)
    ensures NewHost(store, sender, height, id).written == map[] && NewHost(store, sender, height, id).deleted == {}
  {
    hide Snapshot;
  }

  /** What the engine makes of a transfer that goes through: its harvested writes. */
  lemma HarvestedCall(seen: Store, d: World.Call, to: u64, amount: u64)
    requires d.Invoke? && DecodeCall(d.data) == Success(Transfer(to, amount)) && d.gas >= GAS_TRANSFER && d.fuel.Spent?
    requires Auge20.Execute(NewHost(seen, d.sender, d.height, d.id), d.data).Done?
    requires var g := Auge20.Execute(NewHost(seen, d.sender, d.height, d.id), d.data).value.0;
             Harvest([], g.exceeded, SomeLog(g)).Success?
    ensures var r := ExecuteToken(seen, d.sender, d.id, d.data, d.height, d.gas, d.fuel);
            var g := Auge20.Execute(NewHost(seen, d.sender, d.height, d.id), d.data).value.0;
            r.Success? && r.value.writes == Harvest([], g.exceeded, SomeLog(g)).value
  {
    hide NewHost, Auge20.Execute, Harvest, DecodeCall, Surface, EncodeEvent;
  }

  lemma LessRoom(h: Host)
    requires Roomy(h, 3)
    ensures Roomy(h, 2)
  {
  }

  lemma ForgedConfig(l: Ledger, a: u64, v: u64)
    requires l.Good()
    ensures |Forged(l, a, v).config.name| <= MAX_NAME && |Forged(l, a, v).config.symbol| <= MAX_NAME
  {
  }

  lemma SecondCall(H: Digest, lim: Limits, st: Storage, tokens: World.Tokens, c: World.Call, d: World.Call, v: u64, to: u64, amount: u64, ks: seq<Bytes>)
    requires World.Inv(Visible(st), tokens) && Scene(st, tokens, c, d, v, to, amount)
    requires Ordered(H, st, Planted(c, d, v), d, ks)
    ensures var cs := Extend(Planted(c, d, v), Through(H, lim, st, Planted(c, d, v), d, ks));
            var f := Forged(tokens[d.id], d.sender, v);
            && Affordable(f, d.sender, to, amount)
            && Represents(Snapshot(Patch(Visible(st), cs), d.id), d.id, AfterTransfer(f, d.sender, to, amount))
  {
    hide World.Inv, World.Perform, Visible, Patch, Planted, Sliced, Scanned, Seen, Snapshot, Represents, ExecuteToken, Affordable, AfterTransfer,
         Forged, BlockRuns.Target, Apply, AsCalls, BalanceKey, U64, DecodeMeta, HasCode, KeyContract, DecodeCall, Long, Sliceable, IsOrder,
         Ledger.Good, Run;
    var id, l, cs := d.id, tokens[d.id], Planted(c, d, v);
    var view := Patch(Visible(st), cs);
    PlantedKeeps(H, lim, st, tokens, c, d, v, to, amount);
    OnRecord(Visible(st), tokens, id);
    OnRecord(view, tokens, id);
    SameRecordsSelf(view);
    TokenCallOn(H, lim, view, view, tokens, d);
    assert BaseGas(Transfer(to, amount)) == GAS_TRANSFER;
    var base := Sliced(Scanned(st, cs, id), ks);
    var seen := Seen(view, id, base);
    SeenLocal(view, id, base);
    TokenCallOn(H, lim, view, seen, tokens, d);
    PlantedAlone(st, c, d, v, l);
    ForgedCell(st, cs, id, c.id, d.sender, v, ks);
    SpendForged(seen, view, l, d, v, to, amount);
    var ws := World.Perform(H, lim, seen, d).value.writes;
    PatchSplit(Visible(st), cs, AsCalls(ws));
    PatchWrites(view, ws);
  }

  lemma SameRecordsSelf(store: Store)
    ensures SameRecords(store, store)
  {
  }

  /** Some ledger is in the token's cells, and its balances exceed its supply by `v`. */
  ghost predicate Inflated(store: Store, id: Id, v: u64) {
    exists l: Ledger :: Represents(Snapshot(store, id), id, l) && Sum(l.balances) == l.supply + v
  }

  /**
    Stored code writes one cell of its own, named like the balance cell of an account that a token has no cell for; later in
    the same block that account makes a transfer of the token. The block has a run, and after every run of it the token's
    balance cells add up to the supply plus the value written: without the guard, conservation fails.
   */
  lemma ForgedBlock(H: Digest, lim: Limits, st: Storage, tokens: World.Tokens, c: World.Call, d: World.Call, v: u64, to: u64, amount: u64)
    requires World.Inv(Visible(st), tokens) && Scene(st, tokens, c, d, v, to, amount)
    ensures exists cs :: Runs(H, lim, st, [c, d], cs)
    ensures forall cs | Runs(H, lim, st, [c, d], cs) :: Inflated(Patch(Visible(st), cs), d.id, v)
    ensures !Guarded(H, lim, st, [c, d])
  {
    hide World.Inv, Visible, Patch, DecodeMeta, HasCode, KeyContract, DecodeCall, BalanceKey, U64, Inflated, Guarded, Runs;
    var cs := SomeRun(H, lim, st, tokens, c, d, v, to, amount);
    forall after | Runs(H, lim, st, [c, d], after)
      ensures Inflated(Patch(Visible(st), after), d.id, v)
    {
      EveryRun(H, lim, st, tokens, c, d, v, to, amount, after);
    }
    NotClear(H, lim, st, tokens, c, d, v, to, amount);
  }

  lemma SomeRun(H: Digest, lim: Limits, st: Storage, tokens: World.Tokens, c: World.Call, d: World.Call, v: u64, to: u64, amount: u64)
    returns (after: seq<HostCall>)
    requires World.Inv(Visible(st), tokens) && Scene(st, tokens, c, d, v, to, amount)
    ensures Runs(H, lim, st, [c, d], after)
  {
    hide World.Inv, Visible, Patch, DecodeMeta, HasCode, KeyContract, DecodeCall, BalanceKey, U64, Planted, Ideal, InRange, Guarded, Through,
         Ordered, Extend;
    var calls, cs := [c, d], Planted(c, d, v);
    assert calls[..1] == [c];
    FirstCall(H, lim, st, tokens, c, d, v, to, amount);
    BlockHasRun(H, lim, st, tokens, [c]);
    var ks := SomeSecond(H, st, tokens, c, d, v, to, amount);
    after := Extend(cs, Through(H, lim, st, cs, d, ks));
    assert Steps(H, lim, st, cs, d, after);
  }

  lemma EveryRun(H: Digest, lim: Limits, st: Storage, tokens: World.Tokens, c: World.Call, d: World.Call, v: u64, to: u64, amount: u64,
                 after: seq<HostCall>)
    requires World.Inv(Visible(st), tokens) && Scene(st, tokens, c, d, v, to, amount) && Runs(H, lim, st, [c, d], after)
    ensures Inflated(Patch(Visible(st), after), d.id, v)
  {
    hide World.Inv, Visible, Patch, Scene, Planted, Ideal, InRange, Guarded, Through, Ordered, Extend, Inflated;
    var calls := [c, d];
    assert calls[..1] == [c];
    FirstCall(H, lim, st, tokens, c, d, v, to, amount);
    var front: seq<HostCall> :| Runs(H, lim, st, calls[..1], front) && Steps(H, lim, st, front, d, after);
    BlockRefines(H, lim, st, tokens, [c], front);
    var order: seq<Bytes> :| Ordered(H, st, front, d, order) && after == Extend(front, Through(H, lim, st, front, d, order));
    IsInflated(H, lim, st, tokens, c, d, v, to, amount, order);
  }

  lemma SomeSecond(H: Digest, st: Storage, tokens: World.Tokens, c: World.Call, d: World.Call, v: u64, to: u64, amount: u64) returns (ks: seq<Bytes>)
    requires World.Inv(Visible(st), tokens) && Scene(st, tokens, c, d, v, to, amount)
    ensures Ordered(H, st, Planted(c, d, v), d, ks)
  {
    hide World.Inv, Visible, Patch, Planted, Scanned, Represents, Snapshot, BlockRuns.Target, DecodeMeta, HasCode, KeyContract, DecodeCall,
         Sliceable, Ledger.Good, BalanceKey, U64, Run;
    var cs := Planted(c, d, v);
    OnRecord(Visible(st), tokens, d.id);
    PlantedAlone(st, c, d, v, tokens[d.id]);
    PlantedKeeps(H, Limits(0, 0), st, tokens, c, d, v, to, amount);
    TargetKnown(H, Patch(Visible(st), cs), tokens, d);
    var m := Scanned(st, cs, d.id);
    ks := SomeOrder(m.Keys);
    OrderLong(m, ks);
  }

  lemma IsInflated(H: Digest, lim: Limits, st: Storage, tokens: World.Tokens, c: World.Call, d: World.Call, v: u64, to: u64, amount: u64, ks: seq<Bytes>)
    requires World.Inv(Visible(st), tokens) && Scene(st, tokens, c, d, v, to, amount)
    requires Ordered(H, st, Planted(c, d, v), d, ks)
    ensures Inflated(Patch(Visible(st), Extend(Planted(c, d, v), Through(H, lim, st, Planted(c, d, v), d, ks))), d.id, v)
  {
    hide World.Inv, Visible, Patch, Planted, Represents, Snapshot, Through, Ordered, Affordable, AfterTransfer, Forged, DecodeMeta, HasCode,
         KeyContract, DecodeCall, Ledger.Good, BalanceKey, U64;
    OnRecord(Visible(st), tokens, d.id);
    SecondCall(H, lim, st, tokens, c, d, v, to, amount, ks);
    ForgedSum(tokens[d.id], d.sender, v, to, amount);
  }

  lemma NotClear(H: Digest, lim: Limits, st: Storage, tokens: World.Tokens, c: World.Call, d: World.Call, v: u64, to: u64, amount: u64)
    requires World.Inv(Visible(st), tokens) && Scene(st, tokens, c, d, v, to, amount)
    ensures !Guarded(H, lim, st, [c, d])
  {
    hide World.Inv, Visible, Patch, Planted, Represents, Snapshot, Ideal, DecodeMeta, HasCode, KeyContract, DecodeCall, Ledger.Good, BalanceKey,
         U64, Run, IsToken, CellsClear, Guarded;
    var cs := Planted(c, d, v);
    FirstCall(H, lim, st, tokens, c, d, v, to, amount);
    OnRecord(Visible(st), tokens, d.id);
    PlantedAlone(st, c, d, v, tokens[d.id]);
    PlantedKeeps(H, lim, st, tokens, c, d, v, to, amount);
    TargetKnown(H, Patch(Visible(st), cs), tokens, d);
    Harmful(st, cs, d.id, c.id, d.sender, v);
    LastGuard(H, lim, st, c, d);
  }

  lemma Harmful(st: Storage, cs: seq<HostCall>, id: Id, o: Id, a: u64, v: u64)
    requires Run(cs) == map[KeyState(o, BalanceKey(id, a)) := Some(U64(v))] && BalanceKey(id, a) !in Wanted(st, cs, id)
    ensures !CellsClear(st, Run(cs), id)
  {
    hide Run, Wanted, KeyState, U64, BalanceKey, Get, IsCell;
    OwnKey(o, BalanceKey(id, a));
    KnownCells(id, a);
    WantedAt(st, cs, id, BalanceKey(id, a));
    assert Live(Run(cs), KeyState(o, BalanceKey(id, a)));
  }

  lemma LastGuard(H: Digest, lim: Limits, st: Storage, c: World.Call, d: World.Call)
    ensures Guarded(H, lim, st, [c, d]) ==> Clear(st, Ideal(H, lim, st, [c]), d)
  {
    hide Ideal, Clear;
    var calls := [c, d];
    assert calls[..1] == [c];
  }
}
