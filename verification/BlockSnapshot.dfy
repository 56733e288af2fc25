/** Contract snapshots taken through the block overlay: exactly when they are right, and for which orders of the scan. */
module BlockSnapshot {
  import opened Bytes
  import opened Hashing
  import opened ContractTypes
  import opened ContractStore
  import opened WasmHost
  import opened Auge20
  import opened TokenLedger
  import opened Engine
  import opened Locality
  import opened BlockOverlay

  // ---- Building a snapshot from scanned entries ----

  /** An order in which a hash map may yield its keys. */
  ghost predicate IsOrder(m: Store, ks: seq<Bytes>) {
    (forall k :: k in ks <==> k in m) && forall i, j | 0 <= i < j < |ks| :: ks[i] != ks[j]
  }

  predicate Long(m: Store, ks: seq<Bytes>) { forall k | k in ks :: k in m && |k| >= PREFIX_LEN }

  /** Every key loses its first bytes, whatever they are; of two keys that then agree the later one wins. */
  function Sliced(m: Store, ks: seq<Bytes>): Store
    requires Long(m, ks)
  {
    if ks == [] then map[] else
    var last := ks[|ks| - 1];
    Sliced(m, ks[..|ks| - 1])[last[PREFIX_LEN..] := m[last]]
  }

  lemma OrderLong(m: Store, ks: seq<Bytes>)
    requires IsOrder(m, ks) && Sliceable(m)
    ensures Long(m, ks)
  {
  }

  /** A local key holds the value of some scanned key that ends in it, and is absent only if none does. */
  lemma {:induction false} SlicedAt(m: Store, ks: seq<Bytes>, l: Bytes)
    requires Long(m, ks)
    ensures match Lookup(Sliced(m, ks), l)
            case None => forall k | k in ks :: k[PREFIX_LEN..] != l
            case Some(v) => exists k | k in ks :: k[PREFIX_LEN..] == l && m[k] == v
  {
    if ks != [] {
      var front, last := ks[..|ks| - 1], ks[|ks| - 1];
      assert ks == front + [last];
      SlicedAt(m, front, l);
    }
  }

  lemma {:induction false} SomeOrder(s: set<Bytes>) returns (ks: seq<Bytes>)
    ensures (forall k :: k in ks <==> k in s) && forall i, j | 0 <= i < j < |ks| :: ks[i] != ks[j]
  {
    if s == {} {
      ks := [];
    } else {
      var k :| k in s;
      var rest := SomeOrder(s - {k});
      ks := rest + [k];
    }
  }

  /** Some order yields the key last, and then the snapshot holds its value. */
  lemma LastWins(m: Store, k: Bytes) returns (ks: seq<Bytes>)
    requires k in m && Sliceable(m)
    ensures IsOrder(m, ks) && Long(m, ks) && Lookup(Sliced(m, ks), k[PREFIX_LEN..]) == Some(m[k])
  {
    var rest := SomeOrder(m.Keys - {k});
    ks := rest + [k];
    assert ks[..|ks| - 1] == rest;
    assert forall x :: x in ks <==> x in m;
  }

  /** Scanning through the overlay, cutting the prefix length off each key and collecting; `None` is the slice out of range. */
  method TakeSnapshot(overlay: ContractOverlay, id: Id) returns (r: Option<Store>)
    ensures var m := Scan(overlay.storage, overlay.buffer, StatePrefix(id));
            && (r.Some? <==> Sliceable(m))
            && (r.Some? ==> exists order :: IsOrder(m, order) && Long(m, order) && r.value == Sliced(m, order))
  {
    hide Scan, StatePrefix;
    var m := overlay.ScanPrefix(StatePrefix(id));
    var todo := m.Keys;
    var entries: Store := map[];
    ghost var order: seq<Bytes> := [];
    while todo != {}
      invariant todo <= m.Keys && (forall k :: k in order <==> k in m.Keys - todo)
      invariant forall i, j | 0 <= i < j < |order| :: order[i] != order[j]
      invariant Long(m, order) && entries == Sliced(m, order)
      decreases todo
    {
      var k :| k in todo;
      if |k| < PREFIX_LEN {
        return None;
      }
      assert (order + [k])[..|order|] == order;
      order := order + [k];
      entries := entries[k[PREFIX_LEN..] := m[k]];
      todo := todo - {k};
    }
    assert IsOrder(m, order);
    r := Some(entries);
  }

  // ---- What the snapshot should be ----

  /** What the contract's cells are once the buffered changes are applied. */
  function Wanted(st: Storage, cs: seq<HostCall>, id: Id): Store { Snapshot(Patch(Visible(st), cs), id) }

  function Scanned(st: Storage, cs: seq<HostCall>, id: Id): Store { Scan(st, Run(cs), StatePrefix(id)) }

  /** The buffered entry says of local key `l` what the contract's own cell says. */
  predicate Harmless(st: Storage, b: Buffer, id: Id, k: Bytes) {
    |k| >= PREFIX_LEN && Get(st, b, KeyState(id, k[PREFIX_LEN..])) == Buffered(b, k)
  }

  function Buffered(b: Buffer, k: Bytes): Option<Bytes> { if k in b then b[k] else None }

  lemma WantedAt(st: Storage, cs: seq<HostCall>, id: Id, l: Bytes)
    ensures Lookup(Wanted(st, cs, id), l) == Get(st, Run(cs), KeyState(id, l))
  {
    hide Patch, Run, Get, KeyState;
    GetIsPatched(st, cs, KeyState(id, l));
  }

  lemma ScannedAt(st: Storage, cs: seq<HostCall>, id: Id, l: Bytes)
    ensures Lookup(Scanned(st, cs, id), KeyState(id, l)) == Get(st, Run(cs), KeyState(id, l))
  {
    hide Run, Scan, FamilyOf;
    KeyStateParts(id, l);
    StateRouted(id, KeyState(id, l));
    ScanAt(st, Run(cs), StatePrefix(id), KeyState(id, l));
  }

  /** Where a scanned key comes from: it is live in the buffer, or it is a persisted key of this contract. */
  lemma ScannedFrom(st: Storage, cs: seq<HostCall>, id: Id, k: Bytes)
    ensures Live(Run(cs), k) ==> Lookup(Scanned(st, cs, id), k) == Run(cs)[k]
    ensures k in Scanned(st, cs, id) && !Live(Run(cs), k) ==> StatePrefix(id) <= k
  {
    hide Run, Scan, StatePrefix;
    ScanAt(st, Run(cs), StatePrefix(id), k);
  }

  /** One local key is right in every order if every live key that ends in it is harmless. */
  lemma LocalRight(st: Storage, cs: seq<HostCall>, id: Id, l: Bytes, ks: seq<Bytes>)
    requires Sliceable(Scanned(st, cs, id)) && IsOrder(Scanned(st, cs, id), ks)
    requires forall k | Live(Run(cs), k) && |k| >= PREFIX_LEN && k[PREFIX_LEN..] == l :: Harmless(st, Run(cs), id, k)
    ensures Long(Scanned(st, cs, id), ks)
    ensures Lookup(Sliced(Scanned(st, cs, id), ks), l) == Lookup(Wanted(st, cs, id), l)
  {
    hide Scanned, Run, Wanted, Get, Sliced, KeyState;
    var m := Scanned(st, cs, id);
    OrderLong(m, ks);
    SlicedAt(m, ks, l);
    WantedAt(st, cs, id, l);
    ScannedAt(st, cs, id, l);
    var own := KeyState(id, l);
    assert |own| >= PREFIX_LEN && own[PREFIX_LEN..] == l by { OwnKey(id, l); }
    if Lookup(Sliced(m, ks), l).Some? {
      var k :| k in ks && k[PREFIX_LEN..] == l && m[k] == Sliced(m, ks)[l];
      ScannedFrom(st, cs, id, k);
      if !Live(Run(cs), k) {
        UnderPrefix(id, k);
      }
    }
  }

  lemma OwnKey(id: Id, l: Bytes)
    ensures |KeyState(id, l)| >= PREFIX_LEN && KeyState(id, l)[PREFIX_LEN..] == l
  {
  }

  /** The snapshot is defined and is the same right one in every order of the scan. */
  ghost predicate Right(st: Storage, cs: seq<HostCall>, id: Id) {
    && Sliceable(Scanned(st, cs, id))
    && forall ks | IsOrder(Scanned(st, cs, id), ks) ::
         Long(Scanned(st, cs, id), ks) && Sliced(Scanned(st, cs, id), ks) == Wanted(st, cs, id)
  }

  /**
    A snapshot through the overlay is in range, independent of the scan's order and equal to the contract's cells with
    the buffered changes applied, if and only if every live buffered key is as long as the prefix and this contract's own
    cell at what follows holds the same value. The contract's own keys always meet that.
   */
  lemma SnapshotExact(st: Storage, cs: seq<HostCall>, id: Id)
    ensures Right(st, cs, id) <==> forall k | Live(Run(cs), k) :: Harmless(st, Run(cs), id, k)
  {
    hide Scanned, Run, Wanted, Get, Sliced, KeyState, Live;
    var m := Scanned(st, cs, id);
    if forall k | Live(Run(cs), k) :: Harmless(st, Run(cs), id, k) {
      assert Sliceable(m) by { LongKeys(st, cs, id); }
      forall ks | IsOrder(m, ks)
        ensures Long(m, ks) && Sliced(m, ks) == Wanted(st, cs, id)
      {
        OrderLong(m, ks);
        forall l ensures Lookup(Sliced(m, ks), l) == Lookup(Wanted(st, cs, id), l) {
          LocalRight(st, cs, id, l, ks);
        }
        SameLookups(Sliced(m, ks), Wanted(st, cs, id));
      }
    } else {
      var k :| Live(Run(cs), k) && !Harmless(st, Run(cs), id, k);
      ScannedLive(st, cs, id, k);
      if Sliceable(m) {
        var ks := LastWins(m, k);
        WantedAt(st, cs, id, k[PREFIX_LEN..]);
      }
    }
  }

  lemma LongKeys(st: Storage, cs: seq<HostCall>, id: Id)
    ensures Sliceable(Scanned(st, cs, id)) <==> forall k | Live(Run(cs), k) :: |k| >= PREFIX_LEN
  {
    hide Scan, Run;
    SliceExact(st, Run(cs), id);
  }

  lemma ScannedLive(st: Storage, cs: seq<HostCall>, id: Id, k: Bytes)
    requires Live(Run(cs), k)
    ensures k in Scanned(st, cs, id) && Some(Scanned(st, cs, id)[k]) == Buffered(Run(cs), k)
  {
    hide Scanned, Run;
    ScannedFrom(st, cs, id, k);
  }

  /** The contract's own buffered keys are harmless. */
  lemma OwnHarmless(st: Storage, b: Buffer, id: Id, k: Bytes)
    requires Live(b, k) && StatePrefix(id) <= k
    ensures Harmless(st, b, id, k)
  {
    UnderPrefix(id, k);
  }

  // ---- How it goes wrong ----

  /** Another contract's buffered cell shows up at the same local key of this one, which has no such cell of its own. */
  lemma ForeignCellLeaks(st: Storage, cs: seq<HostCall>, id: Id, o: Id, l: Bytes, ks: seq<Bytes>)
    requires o != id && Live(Run(cs), KeyState(o, l)) && l !in Wanted(st, cs, id)
    requires Sliceable(Scanned(st, cs, id)) && IsOrder(Scanned(st, cs, id), ks)
    ensures Long(Scanned(st, cs, id), ks) && l in Sliced(Scanned(st, cs, id), ks)
  {
    hide Scanned, Run, Wanted, Sliced, KeyState, Live;
    OrderLong(Scanned(st, cs, id), ks);
    ScannedLive(st, cs, id, KeyState(o, l));
    OwnKey(o, l);
    SlicedAt(Scanned(st, cs, id), ks, l);
  }

  /** In a block whose only change is that cell the leak is the whole snapshot. */
  lemma LeakAlone(id: Id, o: Id, l: Bytes, v: Bytes)
    requires o != id
    ensures var cs := [Put(KeyState(o, l), v)];
            && Wanted(map[], cs, id) == map[]
            && IsOrder(Scanned(map[], cs, id), [KeyState(o, l)])
            && Long(Scanned(map[], cs, id), [KeyState(o, l)])
            && Sliced(Scanned(map[], cs, id), [KeyState(o, l)]) == map[l := v]
  {
    hide KeyState, Scan, Patch, Visible, Wanted, Scanned;
    var key := KeyState(o, l);
    var cs := [Put(key, v)];
    var none: Store := map[];
    OnePut(key, v);
    forall k
      ensures Lookup(Wanted(map[], cs, id), k) == Lookup(none, k)
    {
      WantedAt(map[], cs, id, k);
      if KeyState(id, k) == KeyState(o, l) {
        KeyStateInjective(id, k, o, l);
      }
    }
    SameLookups(Wanted(map[], cs, id), none);
    ScannedOne(id, key, v);
    OwnKey(o, l);
    var ks := [key];
    assert ks[..0] == [];
  }

  lemma OnePut(k: Bytes, v: Bytes)
    ensures Run([Put(k, v)]) == map[k := Some(v)]
  {
    var cs := [Put(k, v)];
    assert cs[..0] == [] && Run(cs[..0]) == map[];
  }

  lemma ScannedOne(id: Id, k: Bytes, v: Bytes)
    ensures Scanned(map[], [Put(k, v)], id) == map[k := v]
  {
    hide Scan, StatePrefix, Run;
    OnePut(k, v);
    var m, one := Scanned(map[], [Put(k, v)], id), map[k := v];
    forall x
      ensures Lookup(m, x) == Lookup(one, x)
    {
      ScanAt(map[], map[k := Some(v)], StatePrefix(id), x);
    }
    SameLookups(m, one);
  }

  /** With a cell of its own at that local key, the snapshot depends on the order in which the scan is collected. */
  lemma OrderMatters(st: Storage, cs: seq<HostCall>, id: Id, o: Id, l: Bytes) returns (first: seq<Bytes>, second: seq<Bytes>)
    requires o != id && Sliceable(Scanned(st, cs, id)) && Live(Run(cs), KeyState(o, l)) && l in Wanted(st, cs, id)
    requires Run(cs)[KeyState(o, l)] != Some(Wanted(st, cs, id)[l])
    ensures IsOrder(Scanned(st, cs, id), first) && Long(Scanned(st, cs, id), first)
    ensures IsOrder(Scanned(st, cs, id), second) && Long(Scanned(st, cs, id), second)
    ensures Lookup(Sliced(Scanned(st, cs, id), first), l) == Run(cs)[KeyState(o, l)]
    ensures Lookup(Sliced(Scanned(st, cs, id), second), l) == Some(Wanted(st, cs, id)[l])
  {
    hide Scanned, Run, Wanted, Sliced, KeyState, Get;
    var m := Scanned(st, cs, id);
    ScannedLive(st, cs, id, KeyState(o, l));
    OwnKey(o, l);
    OwnKey(id, l);
    WantedAt(st, cs, id, l);
    ScannedAt(st, cs, id, l);
    first := LastWins(m, KeyState(o, l));
    second := LastWins(m, KeyState(id, l));
  }

  // ---- Uploads ----

  /** Buffering an engine outcome, write by write. */
  function AsCalls(ws: seq<WriteOp>): (cs: seq<HostCall>)
    ensures |cs| == |ws|
  {
    seq(|ws|, i requires 0 <= i < |ws| => match ws[i].value case Some(v) => Put(ws[i].key, v) case None => Del(ws[i].key))
  }

  lemma {:induction false} StaysLive(cs: seq<HostCall>, more: seq<HostCall>, k: Bytes)
    requires Live(Run(cs), k) && Del(k) !in more
    ensures Live(Run(cs + more), k)
  {
    if more == [] {
      assert cs + more == cs;
    } else {
      var n := |more| - 1;
      assert (cs + more)[..|cs + more| - 1] == cs + more[..n];
      StaysLive(cs, more[..n], k);
    }
  }

  /**
    Once a block has accepted an upload of new code, the counter key, shorter than the prefix, is live until something
    deletes it: every later snapshot in that block, of any contract, slices out of range.
   */
  lemma UploadThenSnapshot(H: Digest, lim: Limits, st: Storage, cs: seq<HostCall>, wasm: Bytes, valid: bool, gas: u64, more: seq<HostCall>, id: Id)
    requires StoreCode(H, lim, Patch(Visible(st), cs), wasm, valid, gas).Success?
    requires KeyCodeHash(CodeHashOf(H, wasm)) !in Patch(Visible(st), cs)
    requires Del(NEXT_CODE_ID) !in more
    ensures var ws := StoreCode(H, lim, Patch(Visible(st), cs), wasm, valid, gas).value.1.writes;
            !Sliceable(Scanned(st, cs + AsCalls(ws) + more, id)) && !Right(st, cs + AsCalls(ws) + more, id)
  {
    hide Patch, Visible, Scanned, EncodeCode, CodeHashOf, KeyCode, KeyCodeHash, U64;
    var ws := StoreCode(H, lim, Patch(Visible(st), cs), wasm, valid, gas).value.1.writes;
    var front := cs + AsCalls(ws);
    assert |ws| == 3 && ws[2].key == NEXT_CODE_ID && ws[2].value.Some?;
    assert front[|front| - 1] == Put(NEXT_CODE_ID, ws[2].value.value);
    assert Live(Run(front), NEXT_CODE_ID);
    StaysLive(front, more, NEXT_CODE_ID);
    LongKeys(st, front + more, id);
  }

  // ---- Tokens ----

  /** Every live key whose tail is one of the token's cell keys holds what the token's own cell holds. */
  ghost predicate CellsClear(st: Storage, b: Buffer, id: Id) {
    forall k | Live(b, k) && |k| >= PREFIX_LEN && IsCell(id, k[PREFIX_LEN..]) :: Harmless(st, b, id, k)
  }

  lemma CellsRight(st: Storage, cs: seq<HostCall>, id: Id, ks: seq<Bytes>)
    requires Sliceable(Scanned(st, cs, id)) && IsOrder(Scanned(st, cs, id), ks) && CellsClear(st, Run(cs), id)
    ensures Long(Scanned(st, cs, id), ks) && SameCells(Wanted(st, cs, id), Sliced(Scanned(st, cs, id), ks), id)
  {
    hide Scanned, Run, Wanted, Sliced, Live, Harmless, IsCell;
    OrderLong(Scanned(st, cs, id), ks);
    forall x | IsCell(id, x)
      ensures Lookup(Wanted(st, cs, id), x) == Lookup(Sliced(Scanned(st, cs, id), ks), x)
    {
      LocalRight(st, cs, id, x, ks);
    }
  }

  /** A ledger fixes every cell, and the cells are all that holding a ledger is about. */
  lemma RepresentsCells(a: Store, b: Store, id: Id, l: Ledger)
    requires Represents(a, id, l)
    ensures SameCells(a, b, id) <==> Represents(b, id, l)
  {
    hide EncodeState, U64, TokenKey, SupplyKey, BalanceKey;
    if SameCells(a, b, id) {
      KnownCells(id, 0);
      forall x: u64
        ensures BalanceCell(b, id, x, l.balances)
      {
        KnownCells(id, x);
        assert BalanceCell(a, id, x, l.balances);
        assert Lookup(a, BalanceKey(id, x)) == Lookup(b, BalanceKey(id, x));
      }
    }
    if Represents(b, id, l) {
      forall x | IsCell(id, x)
        ensures Lookup(a, x) == Lookup(b, x)
      {
        if x != TokenKey(id) && x != SupplyKey(id) {
          var y: u64 :| x == BalanceKey(id, y);
          assert BalanceCell(a, id, y, l.balances) && BalanceCell(b, id, y, l.balances);
        }
      }
    }
  }

  /**
    The token's ledger is read right in every order of the scan if and only if every live key whose tail is one of the
    token's cell keys holds the value of the token's own cell.
   */
  lemma TokenCellsRight(st: Storage, cs: seq<HostCall>, id: Id, l: Ledger)
    requires Sliceable(Scanned(st, cs, id)) && Represents(Wanted(st, cs, id), id, l)
    ensures (forall ks | IsOrder(Scanned(st, cs, id), ks) ::
               Long(Scanned(st, cs, id), ks) && Represents(Sliced(Scanned(st, cs, id), ks), id, l))
            <==> CellsClear(st, Run(cs), id)
  {
    hide Scanned, Run, Wanted, Sliced, Live, IsCell, Represents, Get, KeyState;
    var m := Scanned(st, cs, id);
    if CellsClear(st, Run(cs), id) {
      forall ks | IsOrder(m, ks)
        ensures Long(m, ks) && Represents(Sliced(m, ks), id, l)
      {
        CellsRight(st, cs, id, ks);
        RepresentsCells(Wanted(st, cs, id), Sliced(m, ks), id, l);
      }
    } else {
      var k :| Live(Run(cs), k) && |k| >= PREFIX_LEN && IsCell(id, k[PREFIX_LEN..]) && !Harmless(st, Run(cs), id, k);
      ScannedLive(st, cs, id, k);
      var ks := LastWins(m, k);
      WantedAt(st, cs, id, k[PREFIX_LEN..]);
      RepresentsCells(Wanted(st, cs, id), Sliced(m, ks), id, l);
    }
  }

  /** Cells of any token and contract records are long enough, and only this token's own cells end in its cell keys. */
  ghost predicate Tidy(k: Bytes) {
    (exists o: Id, x: Bytes :: IsCell(o, x) && k == KeyState(o, x)) || exists o: Id :: k == KeyContract(o)
  }

  lemma TidyApart(k: Bytes, id: Id)
    requires Tidy(k)
    ensures |k| >= PREFIX_LEN && (IsCell(id, k[PREFIX_LEN..]) ==> StatePrefix(id) <= k)
  {
    hide IsCell;
    if o: Id, x: Bytes :| IsCell(o, x) && k == KeyState(o, x) {
      OwnKey(o, x);
      CellOwner(o, x);
      if IsCell(id, x) {
        CellOwner(id, x);
        KeyStateParts(o, x);
      }
    } else {
      if IsCell(id, k[PREFIX_LEN..]) {
        CellOwner(id, k[PREFIX_LEN..]);
      }
    }
  }

  /** A buffer of nothing but token cells and contract records clears every token. */
  lemma TidyClear(st: Storage, b: Buffer, id: Id)
    requires forall k | Live(b, k) :: Tidy(k)
    ensures CellsClear(st, b, id) && forall k | Live(b, k) :: |k| >= PREFIX_LEN
  {
    hide Tidy, Harmless, IsCell, StatePrefix;
    forall k | Live(b, k)
      ensures |k| >= PREFIX_LEN && (IsCell(id, k[PREFIX_LEN..]) ==> Harmless(st, b, id, k))
    {
      TidyApart(k, id);
      if IsCell(id, k[PREFIX_LEN..]) {
        OwnHarmless(st, b, id, k);
      }
    }
  }
}
