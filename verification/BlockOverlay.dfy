/** The per-block overlay over column-family storage: reads, persistence in any order, and prefix scans. */
module BlockOverlay {
  import opened Bytes
  import opened ContractTypes
  import opened ContractStore
  import opened WasmHost

  datatype Family = Codes | CodeHashes | Metadata | Balances | Contracts

  type Storage = map<(Family, Bytes), Bytes>
  type Buffer = map<Bytes, Option<Bytes>>

  /** The routing tests run in this order, so "codehash" must be tried before "code". */
  function FamilyOf(key: Bytes): Family {
    if key == NEXT_CODE_ID then Codes
    else if CODEHASH <= key then CodeHashes
    else if CODE <= key then Codes
    else if CONTRACT <= key then Metadata
    else if TOKEN <= key then Metadata
    else if BAL <= key then Balances
    else if SUPPLY <= key then Balances
    else Contracts
  }

  lemma StateRouted(id: Id, key: Bytes)
    requires StatePrefix(id) <= key
    ensures FamilyOf(key) == Contracts
  {
    assert key[0] == 115 && key[1] == 116;
  }

  lemma BePrefix(n: nat)
    ensures Be(n, 8)[..4] == Be(n / 0x1_0000_0000, 4)
  {
    var a, b, c, d := n / 256, n / 256 / 256, n / 256 / 256 / 256, n / 256 / 256 / 256 / 256;
    assert Be(n, 8) == Be(a, 7) + [n % 256] && Be(a, 7) == Be(b, 6) + [a % 256];
    assert Be(b, 6) == Be(c, 5) + [b % 256] && Be(c, 5) == Be(d, 4) + [c % 256];
    assert d == n / 0x1_0000_0000;
  }

  /** "hash", read as a number. */
  const HASH_WORD := 0x6861_7368

  lemma HashWord()
    ensures Be(HASH_WORD, 4) == [104, 97, 115, 104]
  {
    assert Be(HASH_WORD, 4) == Be(0x68_6173, 3) + [104];
    assert Be(0x68_6173, 3) == Be(0x6861, 2) + [115];
    assert Be(0x6861, 2) == Be(0x68, 1) + [97];
    assert Be(0x68, 1) == Be(0, 0) + [104];
  }

  /** A code record is taken for a hash entry exactly when the upper half of its id spells "hash". */
  lemma CodeRouted(code: u64)
    ensures FamilyOf(KeyCode(code)) == if code / 0x1_0000_0000 == HASH_WORD then CodeHashes else Codes
  {
    var key := KeyCode(code);
    BePrefix(code);
    HashWord();
    Widths();
    assert key[..4] == CODE && key[4..8] == U64(code)[..4];
    assert CODEHASH <= key <==> key[4..8] == [104, 97, 115, 104];
    if Be(code / 0x1_0000_0000, 4) == Be(HASH_WORD, 4) {
      FromBeOfBe(code / 0x1_0000_0000, 4);
      FromBeOfBe(HASH_WORD, 4);
    }
    assert key[0] != NEXT_CODE_ID[0];
  }

  /** The family of every other record key; state keys go to the generic one. */
  lemma RecordsRouted(h: Id, id: Id, a: u64)
    ensures FamilyOf(NEXT_CODE_ID) == Codes && FamilyOf(KeyCodeHash(h)) == CodeHashes
    ensures FamilyOf(KeyContract(id)) == Metadata && FamilyOf(KeyToken(id)) == Metadata
    ensures FamilyOf(KeyBalance(id, a)) == Balances && FamilyOf(KeySupply(id)) == Balances
    ensures forall x :: FamilyOf(KeyState(id, x)) == Contracts
  {
    hide U64;
    assert KeyCodeHash(h)[0] == 99 && KeyContract(id)[2] == 110 && KeyToken(id)[0] == 116 && KeyBalance(id, a)[0] == 98 && KeySupply(id)[1] == 117;
    assert CODEHASH <= KeyCodeHash(h) && CONTRACT <= KeyContract(id) && TOKEN <= KeyToken(id) && BAL <= KeyBalance(id, a) && SUPPLY <= KeySupply(id);
    forall x ensures FamilyOf(KeyState(id, x)) == Contracts {
      KeyStateParts(id, x);
      StateRouted(id, KeyState(id, x));
    }
  }

  /** What a plain reader sees: each key in the family it is routed to. */
  function Visible(st: Storage): Store {
    map p | p in st.Keys && FamilyOf(p.1) == p.0 :: p.1 := st[p]
  }

  lemma VisibleAt(st: Storage, k: Bytes)
    ensures Lookup(Visible(st), k) == if (FamilyOf(k), k) in st then Some(st[(FamilyOf(k), k)]) else None
  {
    if (FamilyOf(k), k) in st {
      var p := (FamilyOf(k), k);
      assert p.1 in Visible(st);
    }
  }

  function Get(st: Storage, b: Buffer, k: Bytes): Option<Bytes> {
    if k in b then b[k] else if (FamilyOf(k), k) in st then Some(st[(FamilyOf(k), k)]) else None
  }

  function Step(b: Buffer, c: HostCall): Buffer {
    match c
    case Put(k, v) => b[k := Some(v)]
    case Del(k) => b[k := None]
  }

  function Run(cs: seq<HostCall>): Buffer
    decreases |cs|
  {
    if cs == [] then map[] else Step(Run(cs[..|cs| - 1]), cs[|cs| - 1])
  }

  /** After any run of puts and deletes, every read equals the reader's view patched by them. */
  lemma {:induction false} GetIsPatched(st: Storage, cs: seq<HostCall>, k: Bytes)
    ensures Get(st, Run(cs), k) == Lookup(Patch(Visible(st), cs), k)
  {
    if cs == [] {
      VisibleAt(st, k);
    } else {
      GetIsPatched(st, cs[..|cs| - 1], k);
    }
  }

  // ---- Persisting ----

  datatype Routed = Routed(family: Family, key: Bytes, value: Option<Bytes>)

  function Persist(st: Storage, ws: seq<Routed>): Storage {
    if ws == [] then st
    else
      var m, w := Persist(st, ws[..|ws| - 1]), ws[|ws| - 1];
      match w.value
      case Some(v) => m[(w.family, w.key) := v]
      case None => m - {(w.family, w.key)}
  }

  /** The routed writes of a buffer, in whatever order the hash map yields. */
  ghost predicate IsWrites(b: Buffer, ws: seq<Routed>) {
    && (forall i, j | 0 <= i < j < |ws| :: ws[i].key != ws[j].key)
    && (forall w :: w in ws <==> w.key in b && w.value == b[w.key] && w.family == FamilyOf(w.key))
  }

  lemma {:induction false} PersistAt(st: Storage, ws: seq<Routed>, k: Bytes)
    requires forall i, j | 0 <= i < j < |ws| :: ws[i].key != ws[j].key
    requires forall w | w in ws :: w.family == FamilyOf(w.key)
    ensures forall w | w in ws && w.key == k :: Lookup(Visible(Persist(st, ws)), k) == w.value
    ensures (forall w | w in ws :: w.key != k) ==> Lookup(Visible(Persist(st, ws)), k) == Lookup(Visible(st), k)
  {
    hide FamilyOf, Visible, Lookup;
    VisibleAt(st, k);
    VisibleAt(Persist(st, ws), k);
    if ws != [] {
      var front := ws[..|ws| - 1];
      PersistAt(st, front, k);
      VisibleAt(Persist(st, front), k);
      assert ws == front + [ws[|ws| - 1]];
    }
  }

  /** Persisting the buffer, in any order, makes a plain reader return what the overlay showed for every key. */
  lemma PersistIsView(st: Storage, cs: seq<HostCall>, ws: seq<Routed>)
    requires IsWrites(Run(cs), ws)
    ensures Visible(Persist(st, ws)) == Patch(Visible(st), cs)
  {
    var b := Run(cs);
    forall k
      ensures Lookup(Visible(Persist(st, ws)), k) == Lookup(Patch(Visible(st), cs), k)
    {
      PersistAt(st, ws, k);
      GetIsPatched(st, cs, k);
      VisibleAt(st, k);
      if k in b {
        assert Routed(FamilyOf(k), k, b[k]) in ws;
      }
    }
    SameLookups(Visible(Persist(st, ws)), Patch(Visible(st), cs));
  }

  // ---- Prefix scans ----

  predicate Live(b: Buffer, k: Bytes) { k in b && b[k].Some? }

  /** The base scan covers the generic family only; the buffered keys are merged without a prefix test. */
  function Scan(st: Storage, b: Buffer, p: Bytes): Store {
    var base := map q | q in st.Keys && q.0 == Contracts && p <= q.1 :: q.1 := st[q];
    (base - b.Keys) + map k | k in b.Keys && b[k].Some? :: b[k].value
  }

  function Filter(m: Store, p: Bytes): Store { map k | k in m && p <= k :: m[k] }

  lemma ScanAt(st: Storage, b: Buffer, p: Bytes, k: Bytes)
    ensures Lookup(Scan(st, b, p), k) ==
            if k in b then b[k] else if (Contracts, k) in st && p <= k then Some(st[(Contracts, k)]) else None
  {
    if (Contracts, k) in st && p <= k {
      var q := (Contracts, k);
      assert q in st.Keys && q.1 == k;
    }
  }

  function At(st: Storage, f: Family, k: Bytes): Option<Bytes> {
    if (f, k) in st then Some(st[(f, k)]) else None
  }

  /** A persisted key under the prefix that is routed to another family, which the generic base scan does not see right. */
  predicate Astray(st: Storage, b: Buffer, p: Bytes, k: Bytes) {
    p <= k && k !in b && At(st, Contracts, k) != At(st, FamilyOf(k), k)
  }

  lemma ScanAgrees(st: Storage, cs: seq<HostCall>, p: Bytes, k: Bytes)
    ensures Lookup(Scan(st, Run(cs), p), k) == Lookup(Filter(Patch(Visible(st), cs), p), k) <==>
            (Live(Run(cs), k) ==> p <= k) && !Astray(st, Run(cs), p, k)
  {
    hide FamilyOf, Patch, Run, Scan, Visible;
    ScanAt(st, Run(cs), p, k);
    GetIsPatched(st, cs, k);
  }

  /**
    A scan is the prefix filter of the patched store if and only if every live buffered key starts with the prefix and no
    persisted key under the prefix is routed elsewhere.
   */
  lemma ScanExact(st: Storage, cs: seq<HostCall>, p: Bytes)
    ensures Scan(st, Run(cs), p) == Filter(Patch(Visible(st), cs), p) <==>
            (forall k | Live(Run(cs), k) :: p <= k) && (forall k :: !Astray(st, Run(cs), p, k))
  {
    hide FamilyOf, Patch, Run, Scan, Visible, Filter, Astray;
    var have, want := Scan(st, Run(cs), p), Filter(Patch(Visible(st), cs), p);
    forall k
      ensures Lookup(have, k) == Lookup(want, k) <==> (Live(Run(cs), k) ==> p <= k) && !Astray(st, Run(cs), p, k)
    {
      ScanAgrees(st, cs, p, k);
    }
    if (forall k | Live(Run(cs), k) :: p <= k) && (forall k :: !Astray(st, Run(cs), p, k)) {
      SameLookups(have, want);
    }
  }

  /** Contract state is never routed elsewhere, so for a contract's own prefix only the buffered keys matter. */
  lemma StateScanExact(st: Storage, cs: seq<HostCall>, id: Id)
    ensures Scan(st, Run(cs), StatePrefix(id)) == Filter(Patch(Visible(st), cs), StatePrefix(id)) <==>
            forall k | Live(Run(cs), k) :: StatePrefix(id) <= k
  {
    hide FamilyOf, Patch, Run, Scan, Visible, Filter, StatePrefix;
    ScanExact(st, cs, StatePrefix(id));
    forall k
      ensures !Astray(st, Run(cs), StatePrefix(id), k)
    {
      if StatePrefix(id) <= k {
        StateRouted(id, k);
      }
    }
  }

  /** The engine cuts the prefix length off every scanned key; that is defined only for keys at least that long. */
  predicate Sliceable(m: Store) { forall k | k in m :: |k| >= PREFIX_LEN }

  /** Over the overlay the snapshot's slicing is defined exactly when no short key is live in the buffer. */
  lemma SliceExact(st: Storage, b: Buffer, id: Id)
    ensures Sliceable(Scan(st, b, StatePrefix(id))) <==> forall k | Live(b, k) :: |k| >= PREFIX_LEN
  {
    var m := Scan(st, b, StatePrefix(id));
    forall k
      ensures k in m ==> Live(b, k) || |k| >= PREFIX_LEN
      ensures Live(b, k) ==> k in m
    {
      ScanAt(st, b, StatePrefix(id), k);
    }
  }

  /** The scan's result for one key while the buffered keys in `todo` are still to be merged. */
  function Merged(st: Storage, b: Buffer, todo: set<Bytes>, p: Bytes, k: Bytes): Option<Bytes> {
    if k in b && k !in todo then b[k]
    else if (Contracts, k) in st && p <= k then Some(st[(Contracts, k)]) else None
  }

  // ---- The overlay object ----

  class ContractOverlay {
    const storage: Storage
    var buffer: Buffer

    constructor (storage: Storage)
      ensures this.storage == storage && buffer == map[]
    {
      this.storage := storage;
      buffer := map[];
    }

    method GetKey(key: Bytes) returns (r: Option<Bytes>)
      ensures r == Get(storage, buffer, key)
    {
      if key in buffer {
        return buffer[key];
      }
      var p := (FamilyOf(key), key);
      r := if p in storage then Some(storage[p]) else None;
    }

    method PutKey(key: Bytes, value: Bytes)
      modifies this
      ensures buffer == Step(old(buffer), Put(key, value))
    {
      buffer := buffer[key := Some(value)];
    }

    method DeleteKey(key: Bytes)
      modifies this
      ensures buffer == Step(old(buffer), Del(key))
    {
      buffer := buffer[key := None];
    }

    method IntoWrites() returns (ws: seq<Routed>)
      ensures IsWrites(buffer, ws)
    {
      ws := [];
      var todo := buffer.Keys;
      while todo != {}
        invariant todo <= buffer.Keys
        invariant IsWrites(buffer - todo, ws)
        decreases todo
      {
        var k :| k in todo;
        ws := ws + [Routed(FamilyOf(k), k, buffer[k])];
        todo := todo - {k};
      }
      assert buffer - todo == buffer;
    }

    /** Base entries first, then every buffered entry over them, in the hash maps' own order. */
    method ScanPrefix(prefix: Bytes) returns (r: Store)
      ensures r == Scan(storage, buffer, prefix)
    {
      r := map[];
      var todo := storage.Keys;
      while todo != {}
        invariant todo <= storage.Keys
        invariant forall k :: Lookup(r, k) ==
                    if (Contracts, k) in storage.Keys - todo && prefix <= k then Some(storage[(Contracts, k)]) else None
        decreases todo
      {
        var q :| q in todo;
        if q.0 == Contracts && prefix <= q.1 {
          r := r[q.1 := storage[q]];
        }
        todo := todo - {q};
      }
      var keys := buffer.Keys;
      while keys != {}
        invariant keys <= buffer.Keys
        invariant forall k :: Lookup(r, k) == Merged(storage, buffer, keys, prefix, k)
        decreases keys
      {
        var k :| k in keys;
        ghost var before, todo := r, keys;
        if buffer[k].Some? {
          r := r[k := buffer[k].value];
        } else {
          r := r - {k};
        }
        keys := keys - {k};
        forall x
          ensures Lookup(r, x) == Merged(storage, buffer, keys, prefix, x)
        {
          assert Lookup(before, x) == Merged(storage, buffer, todo, prefix, x);
        }
      }
      forall k
        ensures Lookup(r, k) == Lookup(Scan(storage, buffer, prefix), k)
      {
        ScanAt(storage, buffer, prefix, k);
        assert Lookup(r, k) == Merged(storage, buffer, keys, prefix, k);
      }
      SameLookups(r, Scan(storage, buffer, prefix));
    }
  }
}
