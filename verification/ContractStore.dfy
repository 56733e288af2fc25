/** Contract storage: key layout, write batches, the in-memory store and per-contract snapshots. */
module ContractStore {
  import opened Bytes
  import opened ContractTypes

  type Store = map<Bytes, Bytes>

  datatype WriteOp = WriteOp(key: Bytes, value: Option<Bytes>)

  // ---- Key layout ----

  const CODE: Bytes := [99, 111, 100, 101]
  const CODEHASH: Bytes := [99, 111, 100, 101, 104, 97, 115, 104]
  const CONTRACT: Bytes := [99, 111, 110, 116, 114, 97, 99, 116]
  const BAL: Bytes := [98, 97, 108]
  const SUPPLY: Bytes := [115, 117, 112, 112, 108, 121]
  const TOKEN: Bytes := [116, 111, 107, 101, 110]
  const STATE: Bytes := [115, 116, 97, 116, 101]
  const NEXT_CODE_ID: Bytes := [110, 101, 120, 116, 95, 99, 111, 100, 101, 95, 105, 100]

  const PREFIX_LEN := 37

  function KeyCode(id: u64): Bytes { CODE + U64(id) }
  function KeyCodeHash(h: Id): Bytes { CODEHASH + h }
  function KeyContract(id: Id): Bytes { CONTRACT + id }
  function KeyBalance(id: Id, addr: u64): Bytes { BAL + id + U64(addr) }
  function KeySupply(id: Id): Bytes { SUPPLY + id }
  function KeyToken(id: Id): Bytes { TOKEN + id }

  /** Everything a contract may touch lives under this prefix. */
  function StatePrefix(id: Id): (p: Bytes)
    ensures |p| == PREFIX_LEN
  {
    STATE + id
  }

  function KeyState(id: Id, k: Bytes): Bytes { StatePrefix(id) + k }

  lemma KeyStateParts(id: Id, k: Bytes)
    ensures StatePrefix(id) <= KeyState(id, k)
    ensures KeyState(id, k)[PREFIX_LEN..] == k
  {
  }

  /** A key under the prefix is the state key of its remainder. */
  lemma UnderPrefix(id: Id, key: Bytes)
    requires StatePrefix(id) <= key
    ensures key == KeyState(id, key[PREFIX_LEN..])
  {
  }

  lemma KeyStateInjective(a: Id, k: Bytes, b: Id, l: Bytes)
    requires KeyState(a, k) == KeyState(b, l)
    ensures a == b && k == l
  {
    var key := KeyState(a, k);
    assert key[5..PREFIX_LEN] == a && key[5..PREFIX_LEN] == b;
    assert key[PREFIX_LEN..] == k && key[PREFIX_LEN..] == l;
  }

  predicate IsStateKey(key: Bytes) { STATE <= key }

  /** No privileged key lies in any contract's namespace. */
  lemma SystemKeysOutside(c: u64, h: Id, id: Id, addr: u64)
    ensures !IsStateKey(KeyCode(c)) && !IsStateKey(KeyCodeHash(h)) && !IsStateKey(NEXT_CODE_ID)
    ensures !IsStateKey(KeyContract(id)) && !IsStateKey(KeyBalance(id, addr))
    ensures !IsStateKey(KeySupply(id)) && !IsStateKey(KeyToken(id))
  {
    assert KeyCode(c)[0] != STATE[0] && KeyCodeHash(h)[0] != STATE[0] && NEXT_CODE_ID[0] != STATE[0];
    assert KeyContract(id)[0] != STATE[0] && KeyBalance(id, addr)[0] != STATE[0];
    assert KeySupply(id)[1] != STATE[1] && KeyToken(id)[1] != STATE[1];
  }

  /** The three key families of the code store never collide, and each is injective. */
  lemma CodeKeysApart(c: u64, d: u64, g: Id, h: Id)
    ensures KeyCode(c) != KeyCodeHash(h) && KeyCode(c) != NEXT_CODE_ID && KeyCodeHash(h) != NEXT_CODE_ID
    ensures KeyCode(c) == KeyCode(d) ==> c == d
    ensures KeyCodeHash(g) == KeyCodeHash(h) ==> g == h
    ensures KeyContract(g) != KeyCode(c) && KeyContract(g) != KeyCodeHash(h) && KeyContract(g) != NEXT_CODE_ID
    ensures KeyContract(g) == KeyContract(h) ==> g == h
  {
    assert KeyCode(c)[0] != NEXT_CODE_ID[0] && KeyCodeHash(h)[0] != NEXT_CODE_ID[0] && KeyContract(g)[0] != NEXT_CODE_ID[0];
    assert KeyContract(g)[2] != KeyCodeHash(h)[2];
    if KeyCode(c) == KeyCode(d) {
      assert KeyCode(c)[4..] == U64(c) && KeyCode(d)[4..] == U64(d);
      U64Injective(c, d);
    }
    if KeyCodeHash(g) == KeyCodeHash(h) {
      assert KeyCodeHash(g)[8..] == g && KeyCodeHash(h)[8..] == h;
    }
    if KeyContract(g) == KeyContract(h) {
      assert KeyContract(g)[8..] == g && KeyContract(h)[8..] == h;
    }
  }

  // ---- Write batches ----

  function ApplyOne(m: Store, w: WriteOp): Store {
    match w.value
    case Some(v) => m[w.key := v]
    case None => m - {w.key}
  }

  function Apply(m: Store, ws: seq<WriteOp>): Store {
    if ws == [] then m else ApplyOne(Apply(m, ws[..|ws| - 1]), ws[|ws| - 1])
  }

  predicate DistinctKeys(ws: seq<WriteOp>) {
    forall i, j | 0 <= i < j < |ws| :: ws[i].key != ws[j].key
  }

  function Lookup(m: Store, k: Bytes): Option<Bytes> {
    if k in m then Some(m[k]) else None
  }

  lemma {:induction false} ApplyUntouched(m: Store, ws: seq<WriteOp>, k: Bytes)
    requires forall w | w in ws :: w.key != k
    ensures Lookup(Apply(m, ws), k) == Lookup(m, k)
  {
    if ws != [] {
      ApplyUntouched(m, ws[..|ws| - 1], k);
    }
  }

  lemma {:induction false} ApplyTouched(m: Store, ws: seq<WriteOp>, w: WriteOp)
    requires DistinctKeys(ws) && w in ws
    ensures Lookup(Apply(m, ws), w.key) == w.value
  {
    var front, last := ws[..|ws| - 1], ws[|ws| - 1];
    if w != last {
      ApplyTouched(m, front, w);
    }
  }

  // ---- Snapshots ----

  /** The keys a contract sees: every key under its prefix, with the prefix cut off. */
  function LocalKeys(m: Store, id: Id): (ks: set<Bytes>)
    ensures forall k :: k in ks <==> KeyState(id, k) in m
  {
    var ks := set key | key in m.Keys && StatePrefix(id) <= key :: key[PREFIX_LEN..];
    assert forall k :: k in ks <==> KeyState(id, k) in m by {
      forall k
        ensures k in ks <==> KeyState(id, k) in m
      {
        KeyStateParts(id, k);
        if k in ks {
          var key :| key in m.Keys && StatePrefix(id) <= key && key[PREFIX_LEN..] == k;
          UnderPrefix(id, key);
        }
      }
    }
    ks
  }

  /** A contract's own view of the store. */
  function Snapshot(m: Store, id: Id): (v: Store)
    ensures forall k :: Lookup(v, k) == Lookup(m, KeyState(id, k))
  {
    map k | k in LocalKeys(m, id) :: m[KeyState(id, k)]
  }

  /** Two maps with equal lookups are equal. */
  lemma SameLookups(a: Store, b: Store)
    requires forall k :: Lookup(a, k) == Lookup(b, k)
    ensures a == b
  {
    forall k
      ensures k in a <==> k in b
      ensures k in a ==> a[k] == b[k]
    {
      assert Lookup(a, k) == Lookup(b, k);
    }
    assert a.Keys == b.Keys;
  }

  /** The in-memory backend: a map that puts, deletes and batches change in place. */
  class MemoryContractStore {
    var entries: Store

    constructor ()
      ensures entries == map[]
    {
      entries := map[];
    }

    method Get(key: Bytes) returns (r: Option<Bytes>)
      ensures r == Lookup(entries, key)
    {
      if key in entries {
        r := Some(entries[key]);
      } else {
        r := None;
      }
    }

    method Put(key: Bytes, value: Bytes)
      modifies this
      ensures entries == ApplyOne(old(entries), WriteOp(key, Some(value)))
    {
      entries := entries[key := value];
    }

    method Delete(key: Bytes)
      modifies this
      ensures entries == ApplyOne(old(entries), WriteOp(key, None))
    {
      entries := entries - {key};
    }

    method ApplyWrites(writes: seq<WriteOp>)
      modifies this
      ensures entries == Apply(old(entries), writes)
    {
      for i := 0 to |writes|
        invariant entries == Apply(old(entries), writes[..i])
      {
        match writes[i].value {
          case Some(v) => Put(writes[i].key, v);
          case None => Delete(writes[i].key);
        }
        assert writes[..i + 1][..i] == writes[..i];
      }
      assert writes[..|writes|] == writes;
    }

    /** Scanning in whatever order the hash map yields, then cutting the prefix off, builds the snapshot. */
    method TakeSnapshot(id: Id) returns (r: Store)
      ensures r == Snapshot(entries, id)
    {
      r := map[];
      var todo := entries.Keys;
      var p := StatePrefix(id);
      while todo != {}
        invariant todo <= entries.Keys
        invariant r.Keys == set k | k in entries.Keys - todo && p <= k :: k[PREFIX_LEN..]
        invariant forall k | k in entries.Keys - todo && p <= k :: k[PREFIX_LEN..] in r && r[k[PREFIX_LEN..]] == entries[k]
        decreases todo
      {
        var k :| k in todo;
        if p <= k {
          forall l | l in entries.Keys - todo && p <= l && l[PREFIX_LEN..] == k[PREFIX_LEN..]
            ensures l == k
          {
            UnderPrefix(id, k);
            UnderPrefix(id, l);
          }
          r := r[k[PREFIX_LEN..] := entries[k]];
        }
        todo := todo - {k};
      }
      assert r == Snapshot(entries, id);
    }
  }
}
