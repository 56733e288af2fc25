/** The three indexes the mempool derives from its list, and what each entry means. */
module PoolIndex {
  import opened Bytes
  import opened Hashing
  import opened Operations
  import opened PayloadCodec
  import opened Blocks
  import opened Admission

  // ---- Tracked nonces ----

  /** The sender nonces an operation occupies; payloads without senders occupy none. */
  function Pairs(op: Operation): set<Pair> {
    set s | s in Senders(op.payload) :: (s.account, s.nOperation)
  }

  predicate HeldAt(ops: seq<Operation>, i: nat, k: Pair) { i < |ops| && k in Pairs(ops[i]) }

  predicate Tracked(ops: seq<Operation>, k: Pair) { exists i | 0 <= i < |ops| :: HeldAt(ops, i, k) }

  /** No sender nonce is occupied by two operations. */
  ghost predicate UniquePairs(ops: seq<Operation>) {
    forall i, j, k: Pair | 0 <= i < |ops| && 0 <= j < |ops| && HeldAt(ops, i, k) && HeldAt(ops, j, k) :: i == j
  }

  /** Later operations use strictly larger nonces of the same account. */
  ghost predicate Ordered(ops: seq<Operation>) {
    forall i, j, a: u64, m: u64, n: u64 | 0 <= i < j < |ops| && HeldAt(ops, i, (a, m)) && HeldAt(ops, j, (a, n)) :: m < n
  }

  predicate DistinctHashes(H: Digest, ops: seq<Operation>) {
    forall i, j | 0 <= i < j < |ops| :: OpHash(H, ops[i]) != OpHash(H, ops[j])
  }

  // ---- The indexes, as they are filled ----

  function Positions(ops: seq<Operation>): map<Pair, nat> {
    if ops == [] then map[] else
    var n := |ops| - 1;
    Positions(ops[..n]) + (map k | k in Pairs(ops[n]) :: n)
  }

  function BumpOne(m: map<u64, u64>, s: Sender): map<u64, u64> {
    m[s.account := if s.account in m && m[s.account] > s.nOperation then m[s.account] else s.nOperation]
  }

  function Bump(m: map<u64, u64>, ss: seq<Sender>): map<u64, u64> {
    if ss == [] then m else BumpOne(Bump(m, ss[..|ss| - 1]), ss[|ss| - 1])
  }

  function Nonces(ops: seq<Operation>): map<u64, u64> {
    if ops == [] then map[] else Bump(Nonces(ops[..|ops| - 1]), Senders(ops[|ops| - 1].payload))
  }

  function ByHash(H: Digest, ops: seq<Operation>): map<Hash, Operation> {
    if ops == [] then map[] else
    var last := ops[|ops| - 1];
    ByHash(H, ops[..|ops| - 1])[OpHash(H, last) := last]
  }

  // ---- What the entries mean ----

  lemma Prefix(ops: seq<Operation>, n: nat)
    requires n < |ops|
    ensures forall k: Pair :: Tracked(ops[..n + 1], k) <==> Tracked(ops[..n], k) || k in Pairs(ops[n])
  {
    var a, b := ops[..n], ops[..n + 1];
    forall k: Pair
      ensures Tracked(b, k) <==> Tracked(a, k) || k in Pairs(ops[n])
    {
      if Tracked(a, k) {
        var i :| 0 <= i < |a| && HeldAt(a, i, k);
        assert HeldAt(b, i, k);
      }
      if k in Pairs(ops[n]) {
        assert HeldAt(b, n, k);
      }
      if Tracked(b, k) && k !in Pairs(ops[n]) {
        var i :| 0 <= i < |b| && HeldAt(b, i, k);
        assert HeldAt(a, i, k);
      }
    }
  }

  lemma PositionsStep(ops: seq<Operation>)
    requires ops != []
    ensures var n, front := |ops| - 1, Positions(ops[..|ops| - 1]);
            && (forall k :: k in Positions(ops) <==> k in front || k in Pairs(ops[n]))
            && (forall k | k in Positions(ops) :: Positions(ops)[k] == if k in Pairs(ops[n]) then n else front[k])
  {
    hide Pairs;
  }

  /** The position index holds exactly the tracked nonces, each with the last position that holds it. */
  lemma {:induction false} PositionsExact(ops: seq<Operation>)
    ensures forall k :: k in Positions(ops) <==> Tracked(ops, k)
    ensures forall k | k in Positions(ops) :: HeldAt(ops, Positions(ops)[k], k)
    ensures forall k, i: nat | k in Positions(ops) && HeldAt(ops, i, k) :: i <= Positions(ops)[k]
  {
    hide Pairs, Tracked;
    if ops == [] {
      assert forall k :: !Tracked(ops, k) by { NothingTracked(); }
    } else {
      hide Positions;
      var n := |ops| - 1;
      PositionsExact(ops[..n]);
      PositionsStep(ops);
      Prefix(ops, n);
      assert ops[..n + 1] == ops;
      forall k, i: nat | k in Positions(ops) && HeldAt(ops, i, k)
        ensures i <= Positions(ops)[k]
      {
        if i < n {
          assert HeldAt(ops[..n], i, k);
          HeldTracked(ops[..n], i, k);
        }
      }
    }
  }

  lemma HeldTracked(ops: seq<Operation>, i: nat, k: Pair)
    requires HeldAt(ops, i, k)
    ensures Tracked(ops, k)
  {
  }

  lemma NothingTracked()
    ensures forall k :: !Tracked([], k)
  {
  }

  lemma PositionOf(ops: seq<Operation>, i: nat, k: Pair)
    requires UniquePairs(ops) && HeldAt(ops, i, k)
    ensures k in Positions(ops) && Positions(ops)[k] == i
  {
    hide Pairs, Positions;
    PositionsExact(ops);
  }

  lemma {:induction false} BumpExact(m: map<u64, u64>, ss: seq<Sender>)
    ensures forall a | a in m :: a in Bump(m, ss) && m[a] <= Bump(m, ss)[a]
    ensures forall s | s in ss :: s.account in Bump(m, ss) && s.nOperation <= Bump(m, ss)[s.account]
    ensures forall a | a in Bump(m, ss) ::
              (a in m && Bump(m, ss)[a] == m[a]) || exists s | s in ss :: s.account == a && s.nOperation == Bump(m, ss)[a]
  {
    if ss != [] {
      var n := |ss| - 1;
      BumpExact(m, ss[..n]);
      assert ss == ss[..n] + [ss[n]];
    }
  }

  /** The nonce index holds, for exactly the accounts with a tracked nonce, the largest one. */
  lemma {:induction false} NoncesExact(ops: seq<Operation>)
    ensures forall k: Pair | Tracked(ops, k) :: k.0 in Nonces(ops) && k.1 <= Nonces(ops)[k.0]
    ensures forall a | a in Nonces(ops) :: Tracked(ops, (a, Nonces(ops)[a]))
  {
    hide Bump;
    if ops != [] {
      var n := |ops| - 1;
      NoncesExact(ops[..n]);
      BumpExact(Nonces(ops[..n]), Senders(ops[n].payload));
      Prefix(ops, n);
      assert ops[..n + 1] == ops;
    }
  }

  /** Every operation under its hash, and nothing else. */
  ghost predicate Indexed(H: Digest, ops: seq<Operation>, m: map<Hash, Operation>) {
    && (forall i | 0 <= i < |ops| :: OpHash(H, ops[i]) in m && m[OpHash(H, ops[i])] == ops[i])
    && (forall h | h in m :: exists i | 0 <= i < |ops| :: OpHash(H, ops[i]) == h)
  }

  /** With distinct hashes the hash index holds every operation under its hash and nothing else. */
  lemma {:induction false} ByHashExact(H: Digest, ops: seq<Operation>)
    requires DistinctHashes(H, ops)
    ensures Indexed(H, ops, ByHash(H, ops))
  {
    hide OpHash;
    if ops != [] {
      var n := |ops| - 1;
      var front := ops[..n];
      ByHashExact(H, front);
      forall h | h in ByHash(H, ops)
        ensures exists i | 0 <= i < |ops| :: OpHash(H, ops[i]) == h
      {
        if h in ByHash(H, front) {
          var i :| 0 <= i < |front| && OpHash(H, front[i]) == h;
          assert OpHash(H, ops[i]) == h;
        } else {
          assert OpHash(H, ops[n]) == h;
        }
      }
      forall i | 0 <= i < |ops|
        ensures OpHash(H, ops[i]) in ByHash(H, ops) && ByHash(H, ops)[OpHash(H, ops[i])] == ops[i]
      {
        if i < n {
          assert front[i] == ops[i];
        }
      }
    }
  }

  /** The plain list's answer to a lookup by hash. */
  function Scan(H: Digest, ops: seq<Operation>, h: Hash): Option<Operation> {
    if ops == [] then None
    else if OpHash(H, ops[0]) == h then Some(ops[0])
    else Scan(H, ops[1..], h)
  }

  lemma {:induction false} ScanFinds(H: Digest, ops: seq<Operation>, h: Hash)
    ensures Scan(H, ops, h).Some? ==> exists i | 0 <= i < |ops| :: OpHash(H, ops[i]) == h && Scan(H, ops, h) == Some(ops[i])
    ensures Scan(H, ops, h).None? ==> forall i | 0 <= i < |ops| :: OpHash(H, ops[i]) != h
  {
    hide OpHash;
    if ops != [] && OpHash(H, ops[0]) != h {
      ScanFinds(H, ops[1..], h);
      if Scan(H, ops[1..], h).Some? {
        var i :| 0 <= i < |ops[1..]| && OpHash(H, ops[1..][i]) == h && Scan(H, ops[1..], h) == Some(ops[1..][i]);
        assert ops[i + 1] == ops[1..][i];
      } else {
        forall i | 0 <= i < |ops| ensures OpHash(H, ops[i]) != h {
          if i > 0 {
            assert ops[i] == ops[1..][i - 1];
          }
        }
      }
    }
  }

  /** The hash index answers as a scan of the list would. */
  lemma LookupIsScan(H: Digest, ops: seq<Operation>, h: Hash)
    requires DistinctHashes(H, ops)
    ensures Scan(H, ops, h) == if h in ByHash(H, ops) then Some(ByHash(H, ops)[h]) else None
  {
    hide OpHash, ByHash, Scan;
    ByHashExact(H, ops);
    ScanFinds(H, ops, h);
  }

  // ---- Removing positions ----

  /** The positions below `n` that stay, in order. */
  function Kept(n: nat, drop: set<nat>): (r: seq<nat>)
    ensures |r| <= n && forall k | 0 <= k < |r| :: r[k] < n
  {
    if n == 0 then []
    else if n - 1 in drop then Kept(n - 1, drop)
    else Kept(n - 1, drop) + [n - 1]
  }

  lemma {:induction false} KeptExact(n: nat, drop: set<nat>)
    ensures forall k | 0 <= k < |Kept(n, drop)| :: Kept(n, drop)[k] !in drop
    ensures forall i | 0 <= i < n && i !in drop :: i in Kept(n, drop)
    ensures forall j, k | 0 <= j < k < |Kept(n, drop)| :: Kept(n, drop)[j] < Kept(n, drop)[k]
  {
    if n > 0 {
      KeptExact(n - 1, drop);
    }
  }

  function Pick<T>(xs: seq<T>, ps: seq<nat>): (r: seq<T>)
    requires forall k | 0 <= k < |ps| :: ps[k] < |xs|
    ensures |r| == |ps| && forall k | 0 <= k < |ps| :: r[k] == xs[ps[k]]
  {
    seq(|ps|, k requires 0 <= k < |ps| => xs[ps[k]])
  }

  /** What is left of the list, in order. */
  function Keep<T>(xs: seq<T>, drop: set<nat>): seq<T> { Pick(xs, Kept(|xs|, drop)) }

  function RemoveAt<T>(xs: seq<T>, i: nat): (r: seq<T>)
    requires i < |xs|
    ensures |r| == |xs| - 1
  {
    xs[..i] + xs[i + 1..]
  }

  lemma {:induction false} KeptAll(n: nat)
    ensures Kept(n, {}) == seq(n, i => i)
  {
    if n > 0 {
      KeptAll(n - 1);
    }
  }

  lemma KeepAll<T>(xs: seq<T>)
    ensures Keep(xs, {}) == xs
  {
    KeptAll(|xs|);
  }

  /** Exactly the operations at positions outside `drop` are left. */
  lemma KeepExact<T>(xs: seq<T>, drop: set<nat>, x: T)
    ensures x in Keep(xs, drop) <==> exists i | 0 <= i < |xs| :: i !in drop && xs[i] == x
  {
    var ps := Kept(|xs|, drop);
    KeptExact(|xs|, drop);
    if i :| 0 <= i < |xs| && i !in drop && xs[i] == x {
      var k :| 0 <= k < |ps| && ps[k] == i;
      assert Keep(xs, drop)[k] == x;
    }
    if x in Keep(xs, drop) {
      var k :| 0 <= k < |ps| && Keep(xs, drop)[k] == x;
      assert xs[ps[k]] == x;
    }
  }

  /** A nonce stays tracked exactly when a kept operation holds it. */
  lemma KeepTracked(ops: seq<Operation>, drop: set<nat>, k: Pair)
    ensures Tracked(Keep(ops, drop), k) <==> exists i | 0 <= i < |ops| :: i !in drop && HeldAt(ops, i, k)
  {
    hide Pairs;
    var ps, kept := Kept(|ops|, drop), Keep(ops, drop);
    KeptExact(|ops|, drop);
    if i :| 0 <= i < |ops| && i !in drop && HeldAt(ops, i, k) {
      var j :| 0 <= j < |ps| && ps[j] == i;
      assert HeldAt(kept, j, k);
    }
    if Tracked(kept, k) {
      var j :| 0 <= j < |kept| && HeldAt(kept, j, k);
      assert HeldAt(ops, ps[j], k);
    }
  }

  /** Any removal keeps hashes distinct, nonces unique and nonces ordered. */
  lemma KeepInvariants(H: Digest, ops: seq<Operation>, drop: set<nat>)
    ensures DistinctHashes(H, ops) ==> DistinctHashes(H, Keep(ops, drop))
    ensures UniquePairs(ops) ==> UniquePairs(Keep(ops, drop))
    ensures Ordered(ops) ==> Ordered(Keep(ops, drop))
  {
    hide Pairs, OpHash;
    var ps, kept := Kept(|ops|, drop), Keep(ops, drop);
    KeptExact(|ops|, drop);
    forall j, k: Pair | 0 <= j < |kept| && HeldAt(kept, j, k)
      ensures HeldAt(ops, ps[j], k)
    {
    }
    if UniquePairs(ops) {
      forall i, j, k: Pair | 0 <= i < |kept| && 0 <= j < |kept| && HeldAt(kept, i, k) && HeldAt(kept, j, k)
        ensures i == j
      {
        assert HeldAt(ops, ps[i], k) && HeldAt(ops, ps[j], k);
        assert ps[i] == ps[j];
      }
    }
    if Ordered(ops) {
      forall i, j, a: u64, m: u64, n: u64 | 0 <= i < j < |kept| && HeldAt(kept, i, (a, m)) && HeldAt(kept, j, (a, n))
        ensures m < n
      {
        assert HeldAt(ops, ps[i], (a, m)) && HeldAt(ops, ps[j], (a, n));
      }
    }
  }

  lemma IndexUnique(H: Digest, ops: seq<Operation>, a: map<Hash, Operation>, b: map<Hash, Operation>)
    requires Indexed(H, ops, a) && Indexed(H, ops, b)
    ensures a == b
  {
    hide OpHash;
    forall h | h in a
      ensures h in b && a[h] == b[h]
    {
      var i :| 0 <= i < |ops| && OpHash(H, ops[i]) == h;
    }
    forall h | h in b
      ensures h in a
    {
      var i :| 0 <= i < |ops| && OpHash(H, ops[i]) == h;
    }
  }

  lemma DistinctRemove(H: Digest, ops: seq<Operation>, i: nat)
    requires DistinctHashes(H, ops) && i < |ops|
    ensures var less := RemoveAt(ops, i);
            && DistinctHashes(H, less)
            && (forall j | 0 <= j < |less| :: less[j] == ops[if j < i then j else j + 1])
            && (forall j | 0 <= j < |less| :: OpHash(H, less[j]) != OpHash(H, ops[i]))
  {
    hide OpHash;
  }

  lemma IndexedRemove(H: Digest, ops: seq<Operation>, i: nat, m: map<Hash, Operation>)
    requires DistinctHashes(H, ops) && i < |ops| && Indexed(H, ops, m)
    ensures Indexed(H, RemoveAt(ops, i), m - {OpHash(H, ops[i])})
  {
    hide OpHash, DistinctHashes;
    var less, gone := RemoveAt(ops, i), m - {OpHash(H, ops[i])};
    DistinctRemove(H, ops, i);
    hide RemoveAt;
    forall h | h in gone
      ensures exists j | 0 <= j < |less| :: OpHash(H, less[j]) == h
    {
      var j :| 0 <= j < |ops| && OpHash(H, ops[j]) == h;
      assert less[if j < i then j else j - 1] == ops[j];
    }
  }

  /** Removing one position removes exactly its hash from the hash index. */
  lemma ByHashRemove(H: Digest, ops: seq<Operation>, i: nat)
    requires DistinctHashes(H, ops) && i < |ops|
    ensures DistinctHashes(H, RemoveAt(ops, i))
    ensures ByHash(H, RemoveAt(ops, i)) == ByHash(H, ops) - {OpHash(H, ops[i])}
  {
    hide OpHash, ByHash, Indexed, DistinctHashes;
    ByHashExact(H, ops);
    DistinctRemove(H, ops, i);
    IndexedRemove(H, ops, i, ByHash(H, ops));
    ByHashExact(H, RemoveAt(ops, i));
    IndexUnique(H, RemoveAt(ops, i), ByHash(H, RemoveAt(ops, i)), ByHash(H, ops) - {OpHash(H, ops[i])});
  }
}
