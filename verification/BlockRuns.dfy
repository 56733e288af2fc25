/** Whole blocks of engine calls through the overlay, and when they do what the same calls do on a plain store. */
module BlockRuns {
  import opened Bytes
  import opened Hashing
  import opened ContractTypes
  import opened ContractStore
  import opened WasmHost
  import opened WriteSort
  import Auge20
  import opened TokenLedger
  import opened NativeToken
  import opened Engine
  import opened Locality
  import World
  import CodeStore
  import opened BlockOverlay
  import opened BlockSnapshot

  /** The contract whose snapshot a call takes; a call that fails before it would need one takes none. */
  function Target(H: Digest, view: Store, c: World.Call): Option<Id> {
    match c
    case Upload(_, _, _) => None
    case Create(sender, codeId, data, _, gas, _, _) =>
      var id := ContractIdOf(H, sender, codeId, data);
      if KeyContract(id) in view || gas < GAS_CREATE then None
      else if (if codeId == AUGE20_CODE_ID then CheckInit(data).Success? else HasCode(view, codeId)) then Some(id)
      else None
    case Invoke(_, id, data, _, gas, _, _) =>
      if KeyContract(id) !in view then None else
      var m := DecodeMeta(view[KeyContract(id)]);
      if m.Failure? then None
      else if m.value.codeId == AUGE20_CODE_ID then
        (if DecodeCall(data).Success? && gas >= BaseGas(DecodeCall(data).value) then Some(m.value.contractId) else None)
      else if !m.value.isAuge20 && HasCode(view, m.value.codeId) && gas >= GAS_TRANSFER then Some(id)
      else None
  }

  function CellKeys(id: Id, base: Store): (ks: set<Bytes>)
    ensures forall k :: k in ks <==> StatePrefix(id) <= k && k[PREFIX_LEN..] in base
  {
    var ks := set l | l in base.Keys :: KeyState(id, l);
    assert forall k :: k in ks <==> StatePrefix(id) <= k && k[PREFIX_LEN..] in base by {
      forall k
        ensures k in ks <==> StatePrefix(id) <= k && k[PREFIX_LEN..] in base
      {
        if k in ks {
          var l :| l in base.Keys && k == KeyState(id, l);
          KeyStateParts(id, l);
        } else if StatePrefix(id) <= k {
          UnderPrefix(id, k);
        }
      }
    }
    ks
  }

  /** The store as a call on contract `id` meets it: everything but the contract's own cells, which are the snapshot's. */
  function Seen(view: Store, id: Id, base: Store): Store {
    map k | k in view.Keys + CellKeys(id, base) && (StatePrefix(id) <= k ==> k[PREFIX_LEN..] in base) ::
      if StatePrefix(id) <= k then base[k[PREFIX_LEN..]] else view[k]
  }

  /** Calls read records as they are and the contract's own cells as the snapshot has them. */
  lemma SeenExact(view: Store, id: Id, base: Store)
    ensures Snapshot(Seen(view, id, base), id) == base
    ensures forall k | !(StatePrefix(id) <= k) :: Lookup(Seen(view, id, base), k) == Lookup(view, k)
    ensures base == Snapshot(view, id) ==> Seen(view, id, base) == view
  {
    hide Snapshot, StatePrefix, KeyState;
    var seen := Seen(view, id, base);
    forall l
      ensures Lookup(Snapshot(seen, id), l) == Lookup(base, l)
    {
      KeyStateParts(id, l);
      assert Lookup(seen, KeyState(id, l)) == Lookup(base, l);
    }
    SameLookups(Snapshot(seen, id), base);
    if base == Snapshot(view, id) {
      forall k
        ensures Lookup(seen, k) == Lookup(view, k)
      {
        if StatePrefix(id) <= k {
          UnderPrefix(id, k);
          assert Lookup(base, k[PREFIX_LEN..]) == Lookup(view, k);
        }
      }
      SameLookups(seen, view);
    }
  }

  /** One call through the overlay, with the scan collected in the order `ks`. */
  ghost function Through(H: Digest, lim: Limits, st: Storage, cs: seq<HostCall>, c: World.Call, ks: seq<Bytes>): Result<ApplyOutcome, ContractError>
    requires Ordered(H, st, cs, c, ks)
  {
    var view := Patch(Visible(st), cs);
    match Target(H, view, c)
    case None => World.Perform(H, lim, view, c)
    case Some(id) => World.Perform(H, lim, Seen(view, id, Sliced(Scanned(st, cs, id), ks)), c)
  }

  /** If the call takes a snapshot, slicing the scan is in range and `ks` is an order of it. */
  ghost predicate Ordered(H: Digest, st: Storage, cs: seq<HostCall>, c: World.Call, ks: seq<Bytes>) {
    match Target(H, Patch(Visible(st), cs), c)
    case None => true
    case Some(id) => Sliceable(Scanned(st, cs, id)) && IsOrder(Scanned(st, cs, id), ks) && Long(Scanned(st, cs, id), ks)
  }

  /** The buffer grows by the writes of an accepted call. */
  function Extend(cs: seq<HostCall>, r: Result<ApplyOutcome, ContractError>): seq<HostCall> {
    match r
    case Success(out) => cs + AsCalls(out.writes)
    case Failure(_) => cs
  }

  /** `after` is what some collection order of the scan makes of the buffer; a slice out of range makes nothing of it. */
  ghost predicate Steps(H: Digest, lim: Limits, st: Storage, cs: seq<HostCall>, c: World.Call, after: seq<HostCall>) {
    exists ks: seq<Bytes> :: Ordered(H, st, cs, c, ks) && after == Extend(cs, Through(H, lim, st, cs, c, ks))
  }

  /** A block may buffer `cs`. */
  ghost predicate Runs(H: Digest, lim: Limits, st: Storage, calls: seq<World.Call>, cs: seq<HostCall>)
    decreases |calls|
  {
    if calls == [] then cs == [] else
    var before, c := calls[..|calls| - 1], calls[|calls| - 1];
    exists front: seq<HostCall> :: Runs(H, lim, st, before, front) && Steps(H, lim, st, front, c, cs)
  }

  /** What the block buffers if every call meets the plain store. */
  ghost function Ideal(H: Digest, lim: Limits, st: Storage, calls: seq<World.Call>): seq<HostCall>
    decreases |calls|
  {
    if calls == [] then [] else
    var front := Ideal(H, lim, st, calls[..|calls| - 1]);
    Extend(front, World.Perform(H, lim, Patch(Visible(st), front), calls[|calls| - 1]))
  }

  /** The plain store after the same calls. */
  ghost function AfterAll(H: Digest, lim: Limits, store: Store, calls: seq<World.Call>): Store
    decreases |calls|
  {
    if calls == [] then store
    else World.After(H, lim, AfterAll(H, lim, store, calls[..|calls| - 1]), calls[|calls| - 1])
  }

  /** What the calls make of the ledgers, as far as they are accepted. */
  ghost function AdvanceAll(H: Digest, lim: Limits, store: Store, tokens: World.Tokens, calls: seq<World.Call>): World.Tokens
    decreases |calls|
  {
    if calls == [] then tokens else
    var front, c := calls[..|calls| - 1], calls[|calls| - 1];
    var t := AdvanceAll(H, lim, store, tokens, front);
    if World.Perform(H, lim, AfterAll(H, lim, store, front), c).Success? then World.Advance(H, t, c) else t
  }

  predicate IsToken(view: Store, id: Id) {
    KeyContract(id) in view && DecodeMeta(view[KeyContract(id)]).Success? && DecodeMeta(view[KeyContract(id)]).value.codeId == AUGE20_CODE_ID
  }

  /** If the call is on a token, the buffer is clear of foreign values for that token's cells. */
  ghost predicate Clear(st: Storage, cs: seq<HostCall>, c: World.Call) {
    c.Invoke? && IsToken(Patch(Visible(st), cs), c.id) ==> CellsClear(st, Run(cs), c.id)
  }

  /** That holds before each call of the block. */
  ghost predicate Guarded(H: Digest, lim: Limits, st: Storage, calls: seq<World.Call>)
    decreases |calls|
  {
    calls == []
    || (var front, c := calls[..|calls| - 1], calls[|calls| - 1];
        Guarded(H, lim, st, front) && Clear(st, Ideal(H, lim, st, front), c))
  }

  /** Before each call that takes a snapshot, every live buffered key is as long as the prefix. */
  ghost predicate InRange(H: Digest, lim: Limits, st: Storage, calls: seq<World.Call>)
    decreases |calls|
  {
    calls == []
    || (var front, c := calls[..|calls| - 1], calls[|calls| - 1];
        var cs := Ideal(H, lim, st, front);
        && InRange(H, lim, st, front)
        && (Target(H, Patch(Visible(st), cs), c).Some? ==> forall k | Live(Run(cs), k) :: |k| >= PREFIX_LEN))
  }

  lemma {:induction false} PatchSplit(m: Store, cs: seq<HostCall>, ds: seq<HostCall>)
    ensures Patch(m, cs + ds) == Patch(Patch(m, cs), ds)
  {
    if ds == [] {
      assert cs + ds == cs;
    } else {
      assert (cs + ds)[..|cs + ds| - 1] == cs + ds[..|ds| - 1];
      PatchSplit(m, cs, ds[..|ds| - 1]);
    }
  }

  lemma {:induction false} PatchWrites(m: Store, ws: seq<WriteOp>)
    ensures Patch(m, AsCalls(ws)) == Apply(m, ws)
  {
    if ws != [] {
      assert AsCalls(ws)[..|ws| - 1] == AsCalls(ws[..|ws| - 1]);
      PatchWrites(m, ws[..|ws| - 1]);
    }
  }

  lemma BufferedAfter(H: Digest, lim: Limits, m: Store, cs: seq<HostCall>, c: World.Call)
    ensures Patch(m, Extend(cs, World.Perform(H, lim, Patch(m, cs), c))) == World.After(H, lim, Patch(m, cs), c)
  {
    hide World.Perform, Patch, Apply, AsCalls;
    var r := World.Perform(H, lim, Patch(m, cs), c);
    if r.Success? {
      PatchSplit(m, cs, AsCalls(r.value.writes));
      PatchWrites(Patch(m, cs), r.value.writes);
    }
  }

  lemma SeenLocal(view: Store, id: Id, base: Store)
    ensures SameRecords(view, Seen(view, id, base)) && Snapshot(Seen(view, id, base), id) == base
  {
    hide Seen, Snapshot, Lookup;
    SeenExact(view, id, base);
    forall k | !IsStateKey(k)
      ensures !(StatePrefix(id) <= k)
    {
      assert STATE <= StatePrefix(id);
    }
  }

  lemma TargetKnown(H: Digest, view: Store, tokens: World.Tokens, c: World.Call)
    requires World.Inv(view, tokens)
    ensures c.Upload? ==> Target(H, view, c) == None
    ensures c.Invoke? ==> Target(H, view, c) in {None, Some(c.id)}
    ensures c.Invoke? ==> (IsToken(view, c.id) <==> c.id in tokens)
  {
    hide World.Inv, DecodeMeta, DecodeCall, DecodeCode, CheckInit, KeyContract, KeyCode, ContractIdOf, HasCode;
    if c.Invoke? {
      if KeyContract(c.id) in view {
        CodeStore.InvKnows(view, tokens, c.id);
      } else {
        Unknown(view, tokens, c.id);
      }
    }
  }

  lemma Unknown(view: Store, tokens: World.Tokens, id: Id)
    requires World.Inv(view, tokens) && KeyContract(id) !in view
    ensures id !in tokens
  {
    assert World.Sound(view, tokens, id);
  }

  /** A call through a clear buffer has, in every order of the scan, the outcome it has on the plain store. */
  lemma ThroughIdeal(H: Digest, lim: Limits, st: Storage, tokens: World.Tokens, cs: seq<HostCall>, c: World.Call, ks: seq<Bytes>)
    requires World.Inv(Patch(Visible(st), cs), tokens) && Ordered(H, st, cs, c, ks) && Clear(st, cs, c)
    ensures Through(H, lim, st, cs, c, ks) == World.Perform(H, lim, Patch(Visible(st), cs), c)
  {
    hide World.Inv, World.Perform, Patch, Visible, Scanned, Sliced, Seen, Target, IsToken, CellsClear, Run, SameRecords, SameCells, Snapshot;
    var view := Patch(Visible(st), cs);
    TargetKnown(H, view, tokens, c);
    if Target(H, view, c).Some? {
      var id := Target(H, view, c).value;
      var base := Sliced(Scanned(st, cs, id), ks);
      SeenLocal(view, id, base);
      if c.Invoke? && c.id in tokens {
        CellsRight(st, cs, id, ks);
      }
      PerformLocal(H, lim, view, Seen(view, id, base), tokens, c);
    }
  }

  lemma {:induction false} IdealAfter(H: Digest, lim: Limits, st: Storage, calls: seq<World.Call>)
    ensures Patch(Visible(st), Ideal(H, lim, st, calls)) == AfterAll(H, lim, Visible(st), calls)
    decreases |calls|
  {
    hide World.Perform, World.After, Visible, Extend;
    if calls != [] {
      var n := |calls| - 1;
      IdealAfter(H, lim, st, calls[..n]);
      BufferedAfter(H, lim, Visible(st), Ideal(H, lim, st, calls[..n]), calls[n]);
    }
  }

  lemma {:induction false} AfterAllKeeps(H: Digest, lim: Limits, store: Store, tokens: World.Tokens, calls: seq<World.Call>)
    requires World.Inv(store, tokens)
    ensures World.Inv(AfterAll(H, lim, store, calls), AdvanceAll(H, lim, store, tokens, calls))
    decreases |calls|
  {
    hide World.Perform, World.After, World.Advance, World.Inv;
    if calls != [] {
      var n := |calls| - 1;
      AfterAllKeeps(H, lim, store, tokens, calls[..n]);
      var s := AfterAll(H, lim, store, calls[..n]);
      World.StepKeeps(H, lim, s, AdvanceAll(H, lim, store, tokens, calls[..n]), calls[n]);
    }
  }

  lemma IdealKeeps(H: Digest, lim: Limits, st: Storage, tokens: World.Tokens, calls: seq<World.Call>)
    requires World.Inv(Visible(st), tokens)
    ensures World.Inv(Patch(Visible(st), Ideal(H, lim, st, calls)), AdvanceAll(H, lim, Visible(st), tokens, calls))
  {
    hide World.Inv, Visible, Patch, Ideal, AfterAll, AdvanceAll;
    IdealAfter(H, lim, st, calls);
    AfterAllKeeps(H, lim, Visible(st), tokens, calls);
  }

  /**
    Over every guarded block, with any number of tokens and any stored code in it, the overlay buffers the same changes in
    every order of every scan, and they are the changes the calls make on the plain store.
   */
  lemma {:induction false} BlockRefines(H: Digest, lim: Limits, st: Storage, tokens: World.Tokens, calls: seq<World.Call>, cs: seq<HostCall>)
    requires World.Inv(Visible(st), tokens) && Guarded(H, lim, st, calls) && Runs(H, lim, st, calls, cs)
    ensures cs == Ideal(H, lim, st, calls)
    ensures Patch(Visible(st), cs) == AfterAll(H, lim, Visible(st), calls)
    decreases |calls|
  {
    hide World.Perform, World.Inv, Visible, Patch, Through, Ordered, Clear, AfterAll, AdvanceAll;
    IdealAfter(H, lim, st, calls);
    if calls != [] {
      var n := |calls| - 1;
      var front: seq<HostCall> :| Runs(H, lim, st, calls[..n], front) && Steps(H, lim, st, front, calls[n], cs);
      BlockRefines(H, lim, st, tokens, calls[..n], front);
      IdealKeeps(H, lim, st, tokens, calls[..n]);
      var ks: seq<Bytes> :| Ordered(H, st, front, calls[n], ks) && cs == Extend(front, Through(H, lim, st, front, calls[n], ks));
      ThroughIdeal(H, lim, st, AdvanceAll(H, lim, Visible(st), tokens, calls[..n]), front, calls[n], ks);
    }
  }

  lemma StepExists(H: Digest, lim: Limits, st: Storage, tokens: World.Tokens, cs: seq<HostCall>, c: World.Call)
    requires World.Inv(Patch(Visible(st), cs), tokens) && Clear(st, cs, c)
    requires Target(H, Patch(Visible(st), cs), c).Some? ==> forall k | Live(Run(cs), k) :: |k| >= PREFIX_LEN
    ensures Steps(H, lim, st, cs, c, Extend(cs, World.Perform(H, lim, Patch(Visible(st), cs), c)))
  {
    hide World.Inv, World.Perform, Patch, Visible, Scanned, Target, Clear, Run, Live, Extend, Through;
    var ks: seq<Bytes> := [];
    if Target(H, Patch(Visible(st), cs), c).Some? {
      var m := Scanned(st, cs, Target(H, Patch(Visible(st), cs), c).value);
      ks := SomeOrder(m.Keys);
      LongKeys(st, cs, Target(H, Patch(Visible(st), cs), c).value);
      OrderLong(m, ks);
    }
    ThroughIdeal(H, lim, st, tokens, cs, c, ks);
  }

  /** A guarded block has a run exactly when no call that takes a snapshot finds a short key live. */
  lemma {:induction false} BlockHasRun(H: Digest, lim: Limits, st: Storage, tokens: World.Tokens, calls: seq<World.Call>)
    requires World.Inv(Visible(st), tokens) && Guarded(H, lim, st, calls)
    ensures Runs(H, lim, st, calls, Ideal(H, lim, st, calls)) <==> InRange(H, lim, st, calls)
    decreases |calls|
  {
    hide World.Perform, World.Inv, Visible, Patch, Clear, AdvanceAll, Target, Extend, Run, Live, Steps;
    if calls != [] {
      var n := |calls| - 1;
      var front, c := calls[..n], calls[n];
      var cs := Ideal(H, lim, st, front);
      BlockHasRun(H, lim, st, tokens, front);
      IdealKeeps(H, lim, st, tokens, front);
      if InRange(H, lim, st, calls) {
        StepExists(H, lim, st, AdvanceAll(H, lim, Visible(st), tokens, front), cs, c);
      }
      if Runs(H, lim, st, calls, Ideal(H, lim, st, calls)) {
        var f: seq<HostCall> :| Runs(H, lim, st, front, f) && Steps(H, lim, st, f, c, Ideal(H, lim, st, calls));
        BlockRefines(H, lim, st, tokens, front, f);
        StepInRange(H, lim, st, cs, c, Ideal(H, lim, st, calls));
      }
    }
  }

  lemma StepInRange(H: Digest, lim: Limits, st: Storage, cs: seq<HostCall>, c: World.Call, after: seq<HostCall>)
    requires Steps(H, lim, st, cs, c, after)
    ensures Target(H, Patch(Visible(st), cs), c).Some? ==> forall k | Live(Run(cs), k) :: |k| >= PREFIX_LEN
  {
    hide World.Perform, Patch, Visible, Scanned, Target, Run, Live, Extend, Through;
    if Target(H, Patch(Visible(st), cs), c).Some? {
      LongKeys(st, cs, Target(H, Patch(Visible(st), cs), c).value);
    }
  }

  /**
    A guarded block, persisted in any order, leaves a store whose cells are the ledgers advanced by the accepted calls:
    refinement and conservation carry over from the plain store.
   */
  lemma BlockConserves(H: Digest, lim: Limits, st: Storage, tokens: World.Tokens, calls: seq<World.Call>, cs: seq<HostCall>, ws: seq<Routed>)
    requires World.Inv(Visible(st), tokens) && Guarded(H, lim, st, calls) && Runs(H, lim, st, calls, cs) && IsWrites(Run(cs), ws)
    ensures World.Inv(Visible(Persist(st, ws)), AdvanceAll(H, lim, Visible(st), tokens, calls))
  {
    hide World.Inv, Guarded, Runs, IsWrites, Visible, Persist, AfterAll, AdvanceAll, Patch;
    BlockRefines(H, lim, st, tokens, calls, cs);
    PersistIsView(st, cs, ws);
    AfterAllKeeps(H, lim, Visible(st), tokens, calls);
  }

  // ---- Blocks of tokens ----

  /** Token creations, and calls on contracts that are tokens or were not there before the block. */
  predicate OnlyTokens(st: Storage, tokens: World.Tokens, calls: seq<World.Call>) {
    forall c | c in calls ::
      || (c.Create? && c.codeId == AUGE20_CODE_ID)
      || (c.Invoke? && (KeyContract(c.id) in Visible(st) ==> c.id in tokens))
  }

  /** Every contract on record that is no token was one that was no token before the block. */
  ghost predicate NoStrangers(st: Storage, tokens: World.Tokens, store: Store, now: World.Tokens) {
    forall o: Id | KeyContract(o) in store && o !in now :: KeyContract(o) in Visible(st) && o !in tokens
  }

  ghost predicate TidyWrites(ws: seq<WriteOp>) { forall w | w in ws :: Tidy(w.key) }

  lemma FreshTouches(store: Store, sender: u64, height: u64, id: Id)
    ensures TouchesCells(NewHost(store, sender, height, id)) && NewHost(store, sender, height, id).id == id
  {
    hide Snapshot;
  }

  lemma HarvestTidy(h: Host, ws: seq<WriteOp>)
    requires TouchesCells(h) && Harvest([], h.exceeded, SomeLog(h)) == Success(ws)
    ensures TidyWrites(ws)
  {
    hide Harvest, TouchesCells, Auge20.IsCell, KeyState;
    forall w | w in ws
      ensures Tidy(w.key)
    {
      HarvestTouches(h, ws, w);
    }
  }

  lemma TokenCallTidy(H: Digest, lim: Limits, store: Store, tokens: World.Tokens, c: World.Call)
    requires World.Inv(store, tokens) && c.Invoke? && c.id in tokens && World.Perform(H, lim, store, c).Success?
    ensures TidyWrites(World.Perform(H, lim, store, c).value.writes)
    ensures forall o: Id :: Lookup(World.After(H, lim, store, c), KeyContract(o)) == Lookup(store, KeyContract(o))
  {
    hide Snapshot, Represents, DecodeMeta, DecodeCall, NewHost, Auge20.Execute, Harvest, Surface, KeyContract, ExecuteNative, DecodeCode,
         KeyCode, World.Inv, Apply, TouchesCells, TidyWrites, TokenLedger.Step, Ledger.Good;
    CodeStore.InvKnows(store, tokens, c.id);
    FreshTouches(store, c.sender, c.height, c.id);
    var h := NewHost(store, c.sender, c.height, c.id);
    ExecuteTouches(h, c.data);
    HarvestTidy(Auge20.Execute(h, c.data).value.0, World.Perform(H, lim, store, c).value.writes);
    World.InvokeExact(store, tokens, c.sender, c.id, c.data, c.height, c.gas, c.fuel);
  }

  lemma RecordTidy(o: Id)
    ensures Tidy(KeyContract(o))
  {
  }

  lemma TokenCreateTidy(H: Digest, lim: Limits, store: Store, tokens: World.Tokens, c: World.Call)
    requires World.Inv(store, tokens) && c.Create? && c.codeId == AUGE20_CODE_ID && World.Perform(H, lim, store, c).Success?
    ensures TidyWrites(World.Perform(H, lim, store, c).value.writes)
    ensures ContractIdOf(H, c.sender, c.codeId, c.data) in World.Advance(H, tokens, c)
    ensures forall o: Id | o != ContractIdOf(H, c.sender, c.codeId, c.data) ::
              Lookup(World.After(H, lim, store, c), KeyContract(o)) == Lookup(store, KeyContract(o))
  {
    hide Snapshot, Represents, NewHost, Auge20.Instantiate, Harvest, KeyContract, World.Inv, Apply, TouchesCells, EncodeMeta, ContractIdOf,
         DecodeInit, Genesis, Ledger.Good, Auge20.IsCell, Tidy;
    var id := ContractIdOf(H, c.sender, c.codeId, c.data);
    FreshTouches(store, c.sender, c.height, id);
    var h := NewHost(store, c.sender, c.height, id);
    Auge20InstantiateTouches(h, c.data);
    var g := Auge20.Instantiate(h, c.data).value;
    var ws := Harvest([], g.exceeded, SomeLog(g)).value;
    HarvestTidy(g, ws);
    var meta := MetaWrite(NewMeta(id, c.sender, c.codeId, c.height));
    assert World.Perform(H, lim, store, c).value.writes == ws + [meta];
    assert Tidy(meta.key) by { RecordTidy(id); }
    World.CreateExact(H, store, tokens, c.sender, c.data, c.height, c.gas, c.fuel);
    forall o: Id | o != id
      ensures Lookup(World.After(H, lim, store, c), KeyContract(o)) == Lookup(store, KeyContract(o))
    {
      assert World.Same(store, World.After(H, lim, store, c), o);
    }
  }

  lemma Auge20InstantiateTouches(h: Host, data: Bytes)
    requires TouchesCells(h)
    ensures Auge20.Instantiate(h, data).Done? ==> TouchesCells(Auge20.Instantiate(h, data).value)
  {
    hide TouchesCells, Auge20.Instantiate;
    if Auge20.Instantiate(h, data).Done? {
      InstantiateTouches(h, data);
    }
  }

  /** One more accepted call of such a block writes tidy keys and makes no stranger. */
  lemma TokenStepTidy(H: Digest, lim: Limits, st: Storage, tokens: World.Tokens, store: Store, now: World.Tokens, c: World.Call)
    requires World.Inv(store, now) && NoStrangers(st, tokens, store, now) && OnlyTokens(st, tokens, [c])
    requires World.Perform(H, lim, store, c).Success?
    ensures TidyWrites(World.Perform(H, lim, store, c).value.writes)
    ensures NoStrangers(st, tokens, World.After(H, lim, store, c), World.Advance(H, now, c))
  {
    hide World.Inv, World.After, Visible, KeyContract, TidyWrites, ContractIdOf, DecodeInit, DecodeCall, Genesis, TokenLedger.Step, Tidy;
    assert c in [c];
    if c.Create? {
      hide World.Perform;
      TokenCreateTidy(H, lim, store, now, c);
      forall o: Id | KeyContract(o) in World.After(H, lim, store, c) && o !in World.Advance(H, now, c)
        ensures KeyContract(o) in store && o !in now
      {
        assert Lookup(World.After(H, lim, store, c), KeyContract(o)) == Lookup(store, KeyContract(o));
      }
    } else {
      assert KeyContract(c.id) in store by { Found(H, lim, store, c); }
      hide World.Perform;
      TokenCallTidy(H, lim, store, now, c);
      forall o: Id | KeyContract(o) in World.After(H, lim, store, c) && o !in World.Advance(H, now, c)
        ensures KeyContract(o) in store && o !in now
      {
        assert Lookup(World.After(H, lim, store, c), KeyContract(o)) == Lookup(store, KeyContract(o));
      }
    }
  }

  lemma Found(H: Digest, lim: Limits, store: Store, c: World.Call)
    requires c.Invoke? && World.Perform(H, lim, store, c).Success?
    ensures KeyContract(c.id) in store
  {
    hide KeyContract, DecodeMeta, ExecuteToken, ExecuteStored, ExecuteNative;
  }

  ghost predicate TidyCalls(cs: seq<HostCall>) { forall c | c in cs :: Tidy(c.key) }

  lemma TidyAppend(cs: seq<HostCall>, ws: seq<WriteOp>)
    requires TidyCalls(cs) && TidyWrites(ws)
    ensures TidyCalls(cs + AsCalls(ws))
  {
    hide Tidy;
    forall c | c in AsCalls(ws)
      ensures Tidy(c.key)
    {
      var i :| 0 <= i < |ws| && AsCalls(ws)[i] == c;
      assert ws[i] in ws;
    }
  }

  lemma {:induction false} TidyLive(cs: seq<HostCall>)
    requires TidyCalls(cs)
    ensures forall k | Live(Run(cs), k) :: Tidy(k)
  {
    hide Tidy;
    if cs != [] {
      var front, last := cs[..|cs| - 1], cs[|cs| - 1];
      assert last in cs && forall c | c in front :: c in cs;
      TidyLive(front);
      assert forall k | Live(Run(cs), k) :: k == last.key || Live(Run(front), k);
    }
  }

  lemma {:induction false} TokenIdeal(H: Digest, lim: Limits, st: Storage, tokens: World.Tokens, calls: seq<World.Call>)
    requires World.Inv(Visible(st), tokens) && OnlyTokens(st, tokens, calls)
    ensures TidyCalls(Ideal(H, lim, st, calls))
    ensures NoStrangers(st, tokens, AfterAll(H, lim, Visible(st), calls), AdvanceAll(H, lim, Visible(st), tokens, calls))
    decreases |calls|
  {
    hide World.Inv, World.Perform, World.Advance, Visible, KeyContract, TidyWrites, Tidy, Patch, AsCalls, Apply;
    if calls != [] {
      var n := |calls| - 1;
      var front, c := calls[..n], calls[n];
      TokenIdeal(H, lim, st, tokens, front);
      IdealAfter(H, lim, st, front);
      AfterAllKeeps(H, lim, Visible(st), tokens, front);
      var store, now := AfterAll(H, lim, Visible(st), front), AdvanceAll(H, lim, Visible(st), tokens, front);
      var r := World.Perform(H, lim, store, c);
      if r.Success? {
        TokenStepTidy(H, lim, st, tokens, store, now, c);
        TidyAppend(Ideal(H, lim, st, front), r.value.writes);
      }
    }
  }

  /** Blocks of token creations and token calls, on any number of tokens, are guarded and in range. */
  lemma {:induction false} TokenBlockGuarded(H: Digest, lim: Limits, st: Storage, tokens: World.Tokens, calls: seq<World.Call>)
    requires World.Inv(Visible(st), tokens) && OnlyTokens(st, tokens, calls)
    ensures Guarded(H, lim, st, calls) && InRange(H, lim, st, calls)
    decreases |calls|
  {
    hide World.Inv, Visible, Patch, Ideal, TidyCalls, Tidy, Live, Run, Target, IsToken, CellsClear, KeyContract;
    if calls != [] {
      var front, c := calls[..|calls| - 1], calls[|calls| - 1];
      TokenBlockGuarded(H, lim, st, tokens, front);
      TokenIdeal(H, lim, st, tokens, front);
      var cs := Ideal(H, lim, st, front);
      TidyLive(cs);
      if c.Invoke? {
        TidyClear(st, Run(cs), c.id);
      } else {
        TidyClear(st, Run(cs), Zero());
      }
    }
  }

  function Zero(): Id { seq(32, _ => 0) }

  /**
    Conservation over blocks of tokens: from any store that holds ledgers, every block of token creations and token calls, on
    any number of tokens and in every order of every scan, buffers exactly the plain store's changes; some run exists; and
    both the overlay's view and the store persisted in any order hold the ledgers advanced by the accepted calls.
   */
  lemma TokenBlockConserves(H: Digest, lim: Limits, st: Storage, tokens: World.Tokens, calls: seq<World.Call>)
    requires World.Inv(Visible(st), tokens) && OnlyTokens(st, tokens, calls)
    ensures Runs(H, lim, st, calls, Ideal(H, lim, st, calls))
    ensures forall cs | Runs(H, lim, st, calls, cs) ::
              cs == Ideal(H, lim, st, calls) && World.Inv(Patch(Visible(st), cs), AdvanceAll(H, lim, Visible(st), tokens, calls))
    ensures forall cs, ws | Runs(H, lim, st, calls, cs) && IsWrites(Run(cs), ws) ::
              World.Inv(Visible(Persist(st, ws)), AdvanceAll(H, lim, Visible(st), tokens, calls))
  {
    hide World.Inv, Visible, Patch, Ideal, Guarded, InRange, Runs, AdvanceAll, OnlyTokens, IsWrites, Persist, Run;
    TokenBlockGuarded(H, lim, st, tokens, calls);
    BlockHasRun(H, lim, st, tokens, calls);
    IdealKeeps(H, lim, st, tokens, calls);
    forall cs | Runs(H, lim, st, calls, cs)
      ensures cs == Ideal(H, lim, st, calls)
    {
      BlockRefines(H, lim, st, tokens, calls, cs);
    }
    forall cs, ws | Runs(H, lim, st, calls, cs) && IsWrites(Run(cs), ws)
      ensures World.Inv(Visible(Persist(st, ws)), AdvanceAll(H, lim, Visible(st), tokens, calls))
    {
      BlockConserves(H, lim, st, tokens, calls, cs, ws);
    }
  }

  // ---- Blocks about one contract ----

  predicate OwnKeys(cs: seq<HostCall>, id: Id) { forall c | c in cs :: StatePrefix(id) <= c.key }

  lemma {:induction false} OwnLive(cs: seq<HostCall>, id: Id)
    requires OwnKeys(cs, id)
    ensures forall k | Live(Run(cs), k) :: StatePrefix(id) <= k
  {
    hide StatePrefix;
    if cs != [] {
      var front, last := cs[..|cs| - 1], cs[|cs| - 1];
      assert last in cs && forall c | c in front :: c in cs;
      OwnLive(front, id);
      assert forall k | Live(Run(cs), k) :: k == last.key || Live(Run(front), k);
    }
  }

  lemma HarvestOwn(h: Host, ws: seq<WriteOp>)
    requires Harvest([], h.exceeded, SomeLog(h)) == Success(ws)
    ensures forall w | w in ws :: StatePrefix(h.id) <= w.key
  {
    hide StatePrefix;
    var log := SomeLog(h);
    assert [] + log == log;
    SortKeeps(log);
    forall w | w in ws
      ensures StatePrefix(h.id) <= w.key
    {
      LogKeysAreState(h, log, w);
    }
  }

  /** A call on a contract writes its own cells only. */
  lemma InvokeOwn(H: Digest, lim: Limits, store: Store, tokens: World.Tokens, c: World.Call)
    requires World.Inv(store, tokens) && c.Invoke? && World.Perform(H, lim, store, c).Success?
    ensures forall w | w in World.Perform(H, lim, store, c).value.writes :: StatePrefix(c.id) <= w.key
  {
    hide Snapshot, Represents, DecodeMeta, DecodeCall, NewHost, Auge20.Execute, Harvest, Surface, KeyContract, ExecuteNative,
         DecodeCode, KeyCode, World.Inv, StatePrefix;
    CodeStore.InvKnows(store, tokens, c.id);
    World.FreshHost(store, c.sender, c.height, c.id);
    var h := NewHost(store, c.sender, c.height, c.id);
    var ws := World.Perform(H, lim, store, c).value.writes;
    if c.id in tokens {
      CodeStore.ExecuteFrame(h, c.data);
      HarvestOwn(Auge20.Execute(h, c.data).value.0, ws);
    } else {
      HarvestOwn(h.Run(c.guest.calls), ws);
    }
  }

  lemma {:induction false} IdealOwn(H: Digest, lim: Limits, st: Storage, tokens: World.Tokens, calls: seq<World.Call>, id: Id)
    requires World.Inv(Visible(st), tokens) && forall c | c in calls :: c.Invoke? && c.id == id
    ensures OwnKeys(Ideal(H, lim, st, calls), id)
    decreases |calls|
  {
    hide World.Perform, Visible, World.Inv, StatePrefix, Patch, AfterAll, AdvanceAll;
    if calls != [] {
      var n := |calls| - 1;
      var front := calls[..n];
      IdealOwn(H, lim, st, tokens, front, id);
      IdealAfter(H, lim, st, front);
      AfterAllKeeps(H, lim, Visible(st), tokens, front);
      var store := AfterAll(H, lim, Visible(st), front);
      var r := World.Perform(H, lim, store, calls[n]);
      if r.Success? {
        InvokeOwn(H, lim, store, AdvanceAll(H, lim, Visible(st), tokens, front), calls[n]);
        forall c | c in AsCalls(r.value.writes)
          ensures StatePrefix(id) <= c.key
        {
          var i :| 0 <= i < |r.value.writes| && AsCalls(r.value.writes)[i] == c;
          assert r.value.writes[i] in r.value.writes;
        }
      }
    }
  }

  /** Blocks of calls on one contract, token or stored code, are guarded and in range, and every snapshot in them is right. */
  lemma {:induction false} OneContractGuarded(H: Digest, lim: Limits, st: Storage, tokens: World.Tokens, calls: seq<World.Call>, id: Id)
    requires World.Inv(Visible(st), tokens) && forall c | c in calls :: c.Invoke? && c.id == id
    ensures Guarded(H, lim, st, calls) && InRange(H, lim, st, calls) && Right(st, Ideal(H, lim, st, calls), id)
    decreases |calls|
  {
    hide World.Inv, Visible, Patch, Ideal, OwnKeys, Live, Run, Target, IsToken, Harmless, StatePrefix, Right;
    IdealOwn(H, lim, st, tokens, calls, id);
    var all := Ideal(H, lim, st, calls);
    OwnClear(st, all, id);
    if calls != [] {
      var front := calls[..|calls| - 1];
      OneContractGuarded(H, lim, st, tokens, front, id);
      IdealOwn(H, lim, st, tokens, front, id);
      OwnClear(st, Ideal(H, lim, st, front), id);
    }
  }

  lemma OwnClear(st: Storage, cs: seq<HostCall>, id: Id)
    requires OwnKeys(cs, id)
    ensures CellsClear(st, Run(cs), id) && Right(st, cs, id) && forall k | Live(Run(cs), k) :: |k| >= PREFIX_LEN
  {
    hide OwnKeys, Live, Run, Harmless, Right;
    OwnLive(cs, id);
    forall k | Live(Run(cs), k)
      ensures Harmless(st, Run(cs), id, k)
    {
      OwnHarmless(st, Run(cs), id, k);
    }
    SnapshotExact(st, cs, id);
  }
}
