/** The indexed mempool: every operation does to the list what the plain pool does, and the indexes keep up. */
module Mempool {
  import opened Bytes
  import opened Hashing
  import opened Operations
  import opened PayloadCodec
  import opened Blocks
  import opened Admission
  import opened PoolIndex
  import opened Pool

  function PairsOf(ss: seq<Sender>): set<Pair> { set s | s in ss :: (s.account, s.nOperation) }

  lemma PairsOfStep(ss: seq<Sender>, i: nat)
    requires i < |ss|
    ensures PairsOf(ss[..i + 1]) == PairsOf(ss[..i]) + {(ss[i].account, ss[i].nOperation)}
  {
    assert ss[..i + 1] == ss[..i] + [ss[i]];
  }

  lemma IndexOne(m: map<Pair, nat>, ks: set<Pair>, k: Pair, idx: nat)
    ensures (m + (map x | x in ks :: idx))[k := idx] == m + (map x | x in ks + {k} :: idx)
  {
  }

  /** What one more operation adds to each index. */
  lemma IndexesAppend(H: Digest, ops: seq<Operation>, op: Operation)
    ensures Positions(ops + [op]) == Positions(ops) + (map k | k in Pairs(op) :: |ops|)
    ensures Nonces(ops + [op]) == Bump(Nonces(ops), Senders(op.payload))
    ensures ByHash(H, ops + [op]) == ByHash(H, ops)[OpHash(H, op) := op]
  {
    hide Bump, Pairs, OpHash;
    assert (ops + [op])[..|ops|] == ops;
  }

  // ---- Removal loops ----

  /** One step of removing positions from the back: what is done is behind position `i`. */
  lemma DropStep<T>(xs: seq<T>, cur: seq<T>, i: nat, drop: set<nat>)
    requires i < |xs| && i < |cur| && cur[..i + 1] == xs[..i + 1]
    requires Keep(xs, drop) == Pick(xs, Kept(i + 1, drop)) + cur[i + 1..]
    ensures var c := if i in drop then RemoveAt(cur, i) else cur;
            c[..i] == xs[..i] && Keep(xs, drop) == Pick(xs, Kept(i, drop)) + c[i..]
  {
    hide Keep;
    assert cur[..i] == cur[..i + 1][..i] == xs[..i + 1][..i] == xs[..i];
    if i in drop {
      assert RemoveAt(cur, i)[i..] == cur[i + 1..];
    } else {
      assert cur[i] == cur[..i + 1][i] == xs[i];
      assert Pick(xs, Kept(i + 1, drop)) == Pick(xs, Kept(i, drop)) + [xs[i]];
      assert [cur[i]] + cur[i + 1..] == cur[i..];
    }
  }

  lemma KeepOne<T>(xs: seq<T>, i: nat)
    requires i < |xs|
    ensures Keep(xs, {i}) == RemoveAt(xs, i)
  {
    KeptOne(|xs|, i);
  }

  lemma {:induction false} KeptOne(n: nat, i: nat)
    requires i < n
    ensures Kept(n, {i}) == seq(n - 1, k => if k < i then k else k + 1)
  {
    if n - 1 == i {
      KeptBelow(i, {i});
    } else {
      KeptOne(n - 1, i);
    }
  }

  lemma {:induction false} KeptBelow(n: nat, drop: set<nat>)
    requires forall i | 0 <= i < n :: i !in drop
    ensures Kept(n, drop) == seq(n, k => k)
  {
    if n > 0 {
      KeptBelow(n - 1, drop);
    }
  }

  lemma KeptEmpty(n: nat, drop: set<nat>)
    requires forall i | 0 <= i < n :: i in drop
    ensures Kept(n, drop) == []
  {
    KeptExact(n, drop);
    assert |Kept(n, drop)| > 0 ==> Kept(n, drop)[0] < n;
  }

  lemma {:induction false} KeptAfter(n: nat, d: nat)
    requires d <= n
    ensures Kept(n, Oldest(d)) == seq(n - d, k => k + d)
  {
    hide Oldest;
    if n == d {
      KeptEmpty(n, Oldest(d));
    } else {
      KeptAfter(n - 1, d);
    }
  }

  lemma KeepAfter<T>(xs: seq<T>, d: nat)
    requires d <= |xs|
    ensures Keep(xs, Oldest(d)) == xs[d..]
  {
    hide Kept, Oldest;
    KeptAfter(|xs|, d);
  }

  lemma Suffix(H: Digest, ops: seq<Operation>)
    requires ops != [] && DistinctHashes(H, ops) && UniquePairs(ops)
    ensures RemoveAt(ops, 0) == ops[1..] && UniquePairs(ops[1..]) && DistinctHashes(H, ops[1..])
    ensures ByHash(H, ops[1..]) == ByHash(H, ops) - {OpHash(H, ops[0])}
  {
    hide OpHash, Pairs, ByHash;
    assert RemoveAt(ops, 0) == ops[1..];
    ByHashRemove(H, ops, 0);
    KeepOne(ops, 0);
    KeepInvariants(H, ops, {0});
  }

  // ---- Expiry fronts ----

  /** The smallest nonce of each account among the operations at these positions. */
  ghost predicate Fronts(ops: seq<Operation>, at: set<nat>, fronts: map<u64, u64>) {
    && (forall e, k | e in at && e < |ops| && k in NoncePairs(ops[e].payload) :: k.0 in fronts && fronts[k.0] <= k.1)
    && (forall a | a in fronts :: exists e | e in at :: e < |ops| && (a, fronts[a]) in NoncePairs(ops[e].payload))
  }

  lemma FrontsDecide(ops: seq<Operation>, expired: set<nat>, fronts: map<u64, u64>, i: nat)
    requires i < |ops| && Fronts(ops, expired, fronts)
    ensures OrphanedBy(ops, i, expired) <==> exists k | k in NoncePairs(ops[i].payload) :: k.0 in fronts && k.1 > fronts[k.0]
  {
    hide NoncePairs;
    if k :| k in NoncePairs(ops[i].payload) && k.0 in fronts && k.1 > fronts[k.0] {
      var e :| e in expired && e < |ops| && (k.0, fronts[k.0]) in NoncePairs(ops[e].payload);
      assert Above(ops[i].payload, ops[e].payload);
    }
  }

  method CollectFronts(ops: seq<Operation>, expired: set<nat>) returns (fronts: map<u64, u64>)
    requires forall e | e in expired :: e < |ops|
    ensures Fronts(ops, expired, fronts)
  {
    hide NoncePairs;
    fronts := map[];
    var todo, done: set<nat> := expired, {};
    while todo != {}
      invariant todo + done == expired && Fronts(ops, done, fronts)
      decreases todo
    {
      var idx :| idx in todo;
      fronts := LowerFronts(ops, idx, done, fronts);
      todo, done := todo - {idx}, done + {idx};
    }
    assert done == expired;
  }

  method LowerFronts(ops: seq<Operation>, idx: nat, ghost done: set<nat>, before: map<u64, u64>) returns (fronts: map<u64, u64>)
    requires idx < |ops| && Fronts(ops, done, before)
    ensures Fronts(ops, done + {idx}, fronts)
  {
    hide NoncePairs;
    var ks := NoncePairs(ops[idx].payload);
    fronts := before;
    for i := 0 to |ks|
      invariant forall a | a in before :: a in fronts && fronts[a] <= before[a]
      invariant forall k | k in ks[..i] :: k.0 in fronts && fronts[k.0] <= k.1
      invariant forall a | a in fronts :: (a in before && fronts[a] == before[a]) || (a, fronts[a]) in ks
    {
      var (account, n) := ks[i];
      assert ks[..i + 1] == ks[..i] + [ks[i]];
      var entry := if account in fronts then fronts[account] else U64_LAST;
      fronts := fronts[account := if n < entry then n else entry];
    }
    assert ks[..|ks|] == ks;
  }

  method IsOrphan(ops: seq<Operation>, i: nat, fronts: map<u64, u64>, ghost expired: set<nat>) returns (b: bool)
    requires i < |ops| && Fronts(ops, expired, fronts)
    ensures b == OrphanedBy(ops, i, expired)
  {
    hide NoncePairs, OrphanedBy, Fronts;
    FrontsDecide(ops, expired, fronts, i);
    var ks := NoncePairs(ops[i].payload);
    for j := 0 to |ks|
      invariant forall l | 0 <= l < j :: !(ks[l].0 in fronts && ks[l].1 > fronts[ks[l].0])
    {
      if ks[j].0 in fronts && ks[j].1 > fronts[ks[j].0] {
        assert ks[j] in ks;
        return true;
      }
    }
    b := false;
  }

  // ---- Committed positions ----

  function Takes(ops: seq<Operation>, c: Operation): set<nat> {
    set i | 0 <= i < |ops| && Confirms(ops, c, i)
  }

  lemma TakesStep(p: State, cs: seq<Operation>, n: nat)
    requires n < |cs|
    ensures CommittedDrop(p, cs[..n + 1]) == CommittedDrop(p, cs[..n]) + Takes(p.ops, cs[n])
  {
    hide Confirms;
    assert cs[..n + 1] == cs[..n] + [cs[n]];
  }

  function HoldersOf(ops: seq<Operation>, ks: set<Pair>): set<nat> {
    set i | 0 <= i < |ops| && ks * Pairs(ops[i]) != {}
  }

  lemma HoldersStep(ops: seq<Operation>, ks: set<Pair>, k: Pair)
    requires UniquePairs(ops)
    ensures HoldersOf(ops, ks + {k}) == HoldersOf(ops, ks) + if k in Positions(ops) then {Positions(ops)[k]} else {}
  {
    hide Pairs, Positions, UniquePairs;
    PositionsExact(ops);
    forall i | 0 <= i < |ops|
      ensures (ks + {k}) * Pairs(ops[i]) != {} <==> ks * Pairs(ops[i]) != {} || (k in Positions(ops) && Positions(ops)[k] == i)
    {
      assert (ks + {k}) * Pairs(ops[i]) == ks * Pairs(ops[i]) + if k in Pairs(ops[i]) then {k} else {};
      if k in Pairs(ops[i]) {
        PositionOf(ops, i, k);
      }
    }
  }

  class Mempool {
    const env: Env
    var operations: seq<Operation>
    var admittedAt: seq<u64>
    var senderNOps: map<u64, u64>
    var opIndex: map<Pair, nat>
    var byHash: map<Hash, Operation>
    var adminKey: Option<Key>

    ghost function View(): State
      reads this
    {
      State(operations, admittedAt, adminKey)
    }

    /** The indexes are what the list says they are. */
    ghost predicate Valid()
      reads this
    {
      && |admittedAt| == |operations|
      && DistinctHashes(env.H, operations)
      && UniquePairs(operations)
      && opIndex == Positions(operations)
      && senderNOps == Nonces(operations)
      && byHash == ByHash(env.H, operations)
    }

    constructor (env: Env)
      ensures Valid() && View() == State([], [], None) && this.env == env
    {
      this.env := env;
      operations, admittedAt := [], [];
      senderNOps, opIndex, byHash := map[], map[], map[];
      adminKey := None;
    }

    method SetAdminPubkey(key: Key)
      requires Valid()
      modifies this
      ensures Valid() && View() == Next(env, old(View()), SetAdmin(key))
    {
      adminKey := Some(key);
    }

    method GetByHash(h: Hash) returns (r: Option<Operation>)
      requires Valid()
      ensures r == Scan(env.H, operations, h)
    {
      LookupIsScan(env.H, operations, h);
      r := if h in byHash then Some(byHash[h]) else None;
    }

    /** Enter one operation's senders into the two nonce indexes. */
    method IndexSenders(op: Operation, idx: nat)
      modifies this`opIndex, this`senderNOps
      ensures opIndex == old(opIndex) + (map k | k in Pairs(op) :: idx)
      ensures senderNOps == Bump(old(senderNOps), Senders(op.payload))
    {
      hide PairsOf;
      var ss := Senders(op.payload);
      assert PairsOf([]) == {} && PairsOf(ss) == Pairs(op) by { PairsOfOperation(op); }
      for i := 0 to |ss|
        invariant opIndex == old(opIndex) + (map k | k in PairsOf(ss[..i]) :: idx)
        invariant senderNOps == Bump(old(senderNOps), ss[..i])
      {
        var s := ss[i];
        PairsOfStep(ss, i);
        IndexOne(old(opIndex), PairsOf(ss[..i]), (s.account, s.nOperation), idx);
        assert ss[..i + 1][..i] == ss[..i];
        opIndex := opIndex[(s.account, s.nOperation) := idx];
        senderNOps := senderNOps[s.account :=
          if s.account in senderNOps && senderNOps[s.account] > s.nOperation then senderNOps[s.account] else s.nOperation];
      }
      assert ss[..|ss|] == ss;
    }

    method RebuildIndex()
      modifies this`opIndex, this`senderNOps
      ensures opIndex == Positions(operations) && senderNOps == Nonces(operations)
    {
      hide Pairs, Bump;
      opIndex, senderNOps := map[], map[];
      for idx := 0 to |operations|
        invariant opIndex == Positions(operations[..idx]) && senderNOps == Nonces(operations[..idx])
      {
        assert operations[..idx + 1][..idx] == operations[..idx];
        IndexSenders(operations[idx], idx);
      }
      assert operations[..|operations|] == operations;
    }

    /** Remove the given positions, largest first, then rebuild the nonce indexes. */
    method DropAt(drop: set<nat>) returns (evicted: nat)
      requires Valid()
      modifies this
      ensures Valid() && View() == Without(old(View()), drop)
      ensures evicted == |old(operations)| - |operations|
    {
      hide DistinctHashes, UniquePairs, Positions, Nonces, ByHash, Keep, Kept, OpHash;
      evicted := 0;
      ghost var ops, times := operations, admittedAt;
      assert Keep(ops, drop) == Pick(ops, Kept(|ops|, drop)) + ops[|ops|..] by { KeepPick(ops, drop); }
      assert Keep(times, drop) == Pick(times, Kept(|ops|, drop)) + times[|ops|..] by { KeepPick(times, drop); }
      for i := |operations| downto 0
        invariant |admittedAt| == |operations| && i <= |operations| && evicted == |ops| - |operations|
        invariant operations[..i] == ops[..i] && admittedAt[..i] == times[..i] && adminKey == old(adminKey)
        invariant Keep(ops, drop) == Pick(ops, Kept(i, drop)) + operations[i..]
        invariant Keep(times, drop) == Pick(times, Kept(i, drop)) + admittedAt[i..]
        invariant DistinctHashes(env.H, operations) && byHash == ByHash(env.H, operations)
      {
        DropStep(ops, operations, i, drop);
        DropStep(times, admittedAt, i, drop);
        if i in drop {
          ByHashRemove(env.H, operations, i);
          byHash := byHash - {OpHash(env.H, operations[i])};
          operations := RemoveAt(operations, i);
          admittedAt := RemoveAt(admittedAt, i);
          evicted := evicted + 1;
        }
      }
      assert operations == Keep(ops, drop) && admittedAt == Keep(times, drop) by { KeptNone(drop); }
      KeepInvariants(env.H, ops, drop);
      RebuildIndex();
    }

    method ValidateAndAdmit(op: Operation, lookup: Lookup, now: u64) returns (v: Verdict)
      requires Valid()
      modifies this
      ensures Valid() && v == Admissible(env, old(View()), op, lookup)
      ensures View() == Next(env, old(View()), Admit(op, lookup, now))
    {
      hide DistinctHashes, UniquePairs, Tracked, HashTaken, OpHash, Pairs, Bump, Positions, Nonces, ByHash, NoncePairs,
           ValidateSignatures, CheckNonce, CheckNonces, ValidateBalanceAndFee;
      if |operations| >= env.config.maxOperations {
        return Failure(MempoolFull);
      }
      if op.chainId != env.config.chainId {
        return Failure(WrongChainId(env.config.chainId, op.chainId));
      }
      var h := OpHash(env.H, op);
      HashTakenExact(env.H, operations, h);
      if h in byHash {
        return Failure(DuplicateOpHash);
      }
      var _ :- ValidateSignatures(env.verify, adminKey, op, lookup);
      var ss := Senders(op.payload);
      PositionsExact(operations);
      for i := 0 to |ss|
        invariant NoDuplicates(operations, ss) == NoDuplicates(operations, ss[i..])
      {
        assert ss[i..][1..] == ss[i + 1..];
        if (ss[i].account, ss[i].nOperation) in opIndex {
          return Failure(DuplicateOperation(ss[i].account, ss[i].nOperation));
        }
      }
      var _ :- CheckNonces(senderNOps, lookup, NoncePairs(op.payload));
      var _ :- ValidateBalanceAndFee(env.config, op.payload, lookup);
      Admitted(env, View(), op, lookup);
      Appended(env.H, operations, op);
      IndexesAppend(env.H, operations, op);
      var idx := |operations|;
      operations := operations + [op];
      admittedAt := admittedAt + [now];
      byHash := byHash[h := op];
      IndexSenders(op, idx);
      v := Success(());
    }

    method EvictExpired(now: u64) returns (evicted: nat)
      requires Valid()
      modifies this
      ensures Valid() && View() == Next(env, old(View()), Event.EvictExpired(now))
      ensures evicted == |old(operations)| - |operations|
    {
      hide DistinctHashes, UniquePairs, Positions, Nonces, ByHash, Keep, OrphanedBy, Fronts;
      ghost var p := View();
      var ops, times := operations, admittedAt;
      WithoutNone(p);
      if env.config.ttlSeconds == 0 {
        return 0;
      }
      var cutoff := if now < env.config.ttlSeconds then 0 else now - env.config.ttlSeconds;
      var expired: set<nat> := {};
      for i := 0 to |times|
        invariant Valid() && View() == p
        invariant expired == set j | 0 <= j < i && times[j] < cutoff
      {
        if times[i] < cutoff {
          expired := expired + {i};
        }
      }
      assert expired == Expired(p, cutoff);
      if expired == {} {
        assert Orphans(p, expired) == {} by { NoOrphans(p); }
        assert ExpiredDrop(env.config, p, now) == {};
        return 0;
      }
      var fronts := CollectFronts(ops, expired);
      var toRemove := expired;
      for i := 0 to |ops|
        invariant Valid() && View() == p
        invariant toRemove == expired + set j | 0 <= j < i && j !in expired && OrphanedBy(ops, j, expired)
      {
        if i !in toRemove {
          var orphan := IsOrphan(ops, i, fronts, expired);
          if orphan {
            toRemove := toRemove + {i};
          }
        }
      }
      assert toRemove == expired + Orphans(p, expired);
      evicted := DropAt(toRemove);
    }

    method EvictLowestPriority() returns (evicted: nat)
      requires Valid()
      modifies this
      ensures Valid() && View() == Next(env, old(View()), EvictLowest)
      ensures |operations| <= env.config.maxOperations && evicted == |old(operations)| - |operations|
    {
      hide DistinctHashes, UniquePairs, ByHash, Positions, Nonces, OpHash, Keep, Oldest;
      evicted := 0;
      KeepAfter(operations, Surplus(env.config, View()));
      KeepAfter(admittedAt, Surplus(env.config, View()));
      while |operations| > env.config.maxOperations
        invariant evicted <= |old(operations)| && operations == old(operations)[evicted..] && admittedAt == old(admittedAt)[evicted..]
        invariant evicted > 0 ==> |operations| >= env.config.maxOperations
        invariant adminKey == old(adminKey) && UniquePairs(operations)
        invariant DistinctHashes(env.H, operations) && byHash == ByHash(env.H, operations)
        invariant evicted == 0 ==> opIndex == Positions(operations) && senderNOps == Nonces(operations)
        decreases |operations|
      {
        Suffix(env.H, operations);
        byHash := byHash - {OpHash(env.H, operations[0])};
        operations := operations[1..];
        admittedAt := admittedAt[1..];
        evicted := evicted + 1;
      }
      if evicted > 0 {
        RebuildIndex();
      }
    }

    method Remove(sender: u64, nOperation: u64) returns (removed: Option<Operation>)
      requires Valid()
      modifies this
      ensures Valid() && View() == Next(env, old(View()), Event.Remove(sender, nOperation))
      ensures removed.Some? <==> Tracked(old(operations), (sender, nOperation))
      ensures removed.Some? ==> removed.value in old(operations) && (sender, nOperation) in Pairs(removed.value)
    {
      hide DistinctHashes, ByHash, Positions, Nonces, OpHash, Keep, Pairs;
      var key := (sender, nOperation);
      PositionsExact(operations);
      if key in opIndex {
        var idx := opIndex[key];
        assert NonceDrop(View(), key) == {idx};
        KeepOne(operations, idx);
        KeepOne(admittedAt, idx);
        KeepInvariants(env.H, operations, {idx});
        ByHashRemove(env.H, operations, idx);
        removed := Some(operations[idx]);
        byHash := byHash - {OpHash(env.H, operations[idx])};
        operations := RemoveAt(operations, idx);
        admittedAt := RemoveAt(admittedAt, idx);
        RebuildIndex();
      } else {
        removed := None;
        assert NonceDrop(View(), key) == {};
        WithoutNone(View());
      }
    }

    method RemoveStale(lookup: Lookup) returns (removed: nat)
      requires Valid()
      modifies this
      ensures Valid() && View() == Next(env, old(View()), Event.RemoveStale(lookup))
      ensures removed == |old(operations)| - |operations|
    {
      hide DistinctHashes, UniquePairs, ByHash, Positions, Nonces, Keep, IsStale;
      var stale: set<nat> := {};
      for i := 0 to |operations|
        invariant stale == set j | 0 <= j < i && IsStale(operations[j], lookup)
      {
        if IsStale(operations[i], lookup) {
          stale := stale + {i};
        }
      }
      assert stale == StaleDrop(View(), lookup);
      removed := DropAt(stale);
    }

    method EvictAllForSender(sender: u64) returns (evicted: nat)
      requires Valid()
      modifies this
      ensures Valid() && View() == Next(env, old(View()), EvictSender(sender))
      ensures evicted == |old(operations)| - |operations|
    {
      hide DistinctHashes, UniquePairs, ByHash, Positions, Nonces, Keep, Uses;
      var toRemove: set<nat> := {};
      for i := 0 to |operations|
        invariant toRemove == set j | 0 <= j < i && Uses(operations[j], sender)
      {
        if Uses(operations[i], sender) {
          toRemove := toRemove + {i};
        }
      }
      assert toRemove == SenderDrop(View(), sender);
      evicted := DropAt(toRemove);
    }

    /** The positions one committed operation takes out, found through the nonce index or by comparison. */
    method Resolve(c: Operation) returns (ix: set<nat>)
      requires Valid()
      ensures ix == Takes(operations, c)
    {
      hide DistinctHashes, UniquePairs, ByHash, Positions, Nonces;
      var ss := Senders(c.payload);
      ix := {};
      if ss == [] {
        var i := FirstSame(operations, c);
        if i < |operations| {
          ix := {i};
        }
        return;
      }
      for j := 0 to |ss|
        invariant ix == HoldersOf(operations, PairsOf(ss[..j]))
      {
        var key := (ss[j].account, ss[j].nOperation);
        PairsOfStep(ss, j);
        HoldersStep(operations, PairsOf(ss[..j]), key);
        if key in opIndex {
          ix := ix + {opIndex[key]};
        }
      }
      assert ss[..|ss|] == ss && PairsOf(ss) == Pairs(c);
    }

    method RemoveCommitted(committed: seq<Operation>)
      requires Valid()
      modifies this
      ensures Valid() && View() == Next(env, old(View()), Event.RemoveCommitted(committed))
    {
      hide DistinctHashes, UniquePairs, ByHash, Positions, Nonces, Keep, Confirms, Takes;
      var indices: set<nat> := {};
      for n := 0 to |committed|
        invariant indices == CommittedDrop(View(), committed[..n]) && Valid() && View() == old(View())
      {
        TakesStep(View(), committed, n);
        var ix := Resolve(committed[n]);
        indices := indices + ix;
      }
      assert committed[..|committed|] == committed;
      var _ := DropAt(indices);
    }

    method Clear()
      requires Valid()
      modifies this
      ensures Valid() && View() == Next(env, old(View()), Event.Clear)
    {
      hide Keep, Oldest, DistinctHashes, UniquePairs, Positions, Nonces, ByHash;
      EmptyIndexes(env.H);
      KeepAfter(operations, |operations|);
      KeepAfter(admittedAt, |operations|);
      operations, admittedAt := [], [];
      senderNOps, opIndex, byHash := map[], map[], map[];
    }

    method Perform(e: Event)
      requires Valid()
      modifies this
      ensures Valid() && View() == Next(env, old(View()), e)
    {
      hide Valid, Next;
      match e {
        case Admit(op, lookup, now) => var _ := ValidateAndAdmit(op, lookup, now);
        case EvictExpired(now) => var _ := EvictExpired(now);
        case EvictLowest => var _ := EvictLowestPriority();
        case Remove(a, n) => var _ := Remove(a, n);
        case RemoveStale(lookup) => var _ := RemoveStale(lookup);
        case RemoveCommitted(cs) => RemoveCommitted(cs);
        case EvictSender(a) => var _ := EvictAllForSender(a);
        case Clear => Clear();
        case SetAdmin(k) => SetAdminPubkey(k);
      }
    }

    /** On every run the indexed pool and the plain list agree. */
    method Replay(es: seq<Event>)
      requires Valid()
      modifies this
      ensures Valid() && View() == Run(env, old(View()), es)
    {
      hide Valid, Next;
      for i := 0 to |es|
        invariant Valid() && View() == Run(env, old(View()), es[..i])
      {
        assert es[..i + 1][..i] == es[..i];
        Perform(es[i]);
      }
      assert es[..|es|] == es;
    }
  }

  // ---- Small facts the methods use ----

  lemma PairsOfOperation(op: Operation)
    ensures PairsOf([]) == {} && PairsOf(Senders(op.payload)) == Pairs(op)
  {
  }

  lemma EmptyIndexes(H: Digest)
    ensures Positions([]) == map[] && Nonces([]) == map[] && ByHash(H, []) == map[]
    ensures DistinctHashes(H, []) && UniquePairs([])
  {
  }

  lemma KeepPick<T>(xs: seq<T>, drop: set<nat>)
    ensures Keep(xs, drop) == Pick(xs, Kept(|xs|, drop)) + xs[|xs|..]
  {
  }

  lemma WithoutNone(p: State)
    ensures Without(p, {}) == p
  {
    KeepAll(p.ops);
    KeepAll(p.times);
  }

  lemma KeptNone(drop: set<nat>)
    ensures Kept(0, drop) == []
  {
  }

  lemma NoOrphans(p: State)
    ensures Orphans(p, {}) == {}
  {
  }

  lemma HashTakenExact(H: Digest, ops: seq<Operation>, h: Hash)
    requires DistinctHashes(H, ops)
    ensures h in ByHash(H, ops) <==> HashTaken(H, ops, h)
  {
    hide OpHash, ByHash;
    ByHashExact(H, ops);
  }
}
