/** What the bulk removals leave behind. */
module Removals {
  import opened Bytes
  import opened Hashing
  import opened Operations
  import opened PayloadCodec
  import opened Blocks
  import opened Admission
  import opened PoolIndex
  import opened Pool

  // ---- Expiry ----

  /** `n` is the smallest nonce of the account among the expired operations. */
  ghost predicate Front(ops: seq<Operation>, expired: set<nat>, a: u64, n: u64) {
    && (exists e | e in expired :: e < |ops| && (a, n) in NoncePairs(ops[e].payload))
    && (forall e, m: u64 | e in expired && e < |ops| && (a, m) in NoncePairs(ops[e].payload) :: n <= m)
  }

  lemma OrphanFront(ops: seq<Operation>, expired: set<nat>, i: nat, a: u64, m: u64, n: u64)
    requires i < |ops| && Front(ops, expired, a, m) && (a, n) in NoncePairs(ops[i].payload) && n > m
    ensures OrphanedBy(ops, i, expired)
  {
    hide NoncePairs;
    var e :| e in expired && e < |ops| && (a, m) in NoncePairs(ops[e].payload);
    assert Above(ops[i].payload, ops[e].payload);
  }

  lemma FrontOrphan(ops: seq<Operation>, expired: set<nat>, i: nat) returns (a: u64, m: u64, n: u64)
    requires i < |ops| && OrphanedBy(ops, i, expired)
    ensures Front(ops, expired, a, m) && (a, n) in NoncePairs(ops[i].payload) && n > m
  {
    hide NoncePairs;
    var e :| e in expired && e < |ops| && Above(ops[i].payload, ops[e].payload);
    var k, l :| k in NoncePairs(ops[i].payload) && l in NoncePairs(ops[e].payload) && k.0 == l.0 && k.1 > l.1;
    a, n := k.0, k.1;
    m := Smallest(ops, expired, a, l.1, e);
  }

  /** Some expired nonce of the account is the smallest. */
  lemma {:induction false} Smallest(ops: seq<Operation>, expired: set<nat>, a: u64, n: u64, e: nat) returns (m: u64)
    requires e in expired && e < |ops| && (a, n) in NoncePairs(ops[e].payload)
    ensures m <= n && Front(ops, expired, a, m)
    decreases n
  {
    hide NoncePairs;
    if f, k: u64 :| f in expired && f < |ops| && (a, k) in NoncePairs(ops[f].payload) && k < n {
      m := Smallest(ops, expired, a, k, f);
    } else {
      m := n;
    }
  }

  /** The operation holds a nonce above the smallest expired nonce of the same account. */
  ghost predicate BeyondFront(ops: seq<Operation>, expired: set<nat>, p: Payload) {
    exists k, m: u64 | k in NoncePairs(p) :: Front(ops, expired, k.0, m) && k.1 > m
  }

  lemma OrphanedExactly(ops: seq<Operation>, expired: set<nat>, i: nat)
    requires i < |ops|
    ensures OrphanedBy(ops, i, expired) <==> BeyondFront(ops, expired, ops[i].payload)
  {
    hide NoncePairs, OrphanedBy, Front;
    if OrphanedBy(ops, i, expired) {
      var a, m, n := FrontOrphan(ops, expired, i);
      assert (a, n) in NoncePairs(ops[i].payload) && Front(ops, expired, (a, n).0, m);
    }
    if k, m: u64 :| k in NoncePairs(ops[i].payload) && Front(ops, expired, k.0, m) && k.1 > m {
      OrphanFront(ops, expired, i, k.0, m, k.1);
    }
  }

  /**
   * Expiry leaves, in order and with their times, exactly the positions that are neither expired nor hold a nonce above
   * the smallest expired nonce of the same account.
   */
  lemma ExpiryExact(env: Env, p: State, now: u64) returns (ps: seq<nat>)
    requires PoolOk(env, p) && env.config.ttlSeconds > 0
    ensures (forall j, k | 0 <= j < k < |ps| :: ps[j] < ps[k]) && (forall k | 0 <= k < |ps| :: ps[k] < |p.ops|)
    ensures forall i | 0 <= i < |p.ops| ::
              i in ps <==> (p.times[i] >= Cutoff(env.config, now)
                            && !BeyondFront(p.ops, Expired(p, Cutoff(env.config, now)), p.ops[i].payload))
    ensures Next(env, p, EvictExpired(now)) == State(Pick(p.ops, ps), Pick(p.times, ps), p.admin)
  {
    hide OrphanedBy, BeyondFront, DistinctHashes, UniquePairs, Kept;
    var x := Expired(p, Cutoff(env.config, now));
    var drop := x + Orphans(p, x);
    ps := Kept(|p.ops|, drop);
    KeptExact(|p.ops|, drop);
    forall i | 0 <= i < |p.ops|
      ensures i in drop <==> p.times[i] < Cutoff(env.config, now) || BeyondFront(p.ops, x, p.ops[i].payload)
    {
      OrphanedExactly(p.ops, x, i);
    }
  }

  // ---- Committed operations ----

  /** No pending operation shares a sender nonce with a committed one. */
  lemma CommittedNonces(p: State, cs: seq<Operation>, c: Operation, k: Pair)
    requires c in cs && k in Pairs(c)
    ensures !Tracked(Without(p, CommittedDrop(p, cs)).ops, k)
  {
    hide Pairs, Keep, Tracked;
    assert Senders(c.payload) != [] by { PairSender(c, k); }
    KeepTracked(p.ops, CommittedDrop(p, cs), k);
    forall i | 0 <= i < |p.ops| && HeldAt(p.ops, i, k)
      ensures i in CommittedDrop(p, cs)
    {
      assert k in Pairs(c) * Pairs(p.ops[i]);
      assert Confirms(p.ops, c, i);
    }
  }

  /**
   * A committed operation without senders stays pending exactly when it is pending and an earlier pending operation
   * compares equal to it: equality overlooks receivers' public keys, and only the first match goes.
   */
  lemma CommittedSenderless(H: Digest, p: State, cs: seq<Operation>, c: Operation)
    requires DistinctHashes(H, p.ops) && c in cs && Senders(c.payload) == []
    ensures c in Without(p, CommittedDrop(p, cs)).ops <==>
            FirstSame(p.ops, c) < |p.ops| && c in p.ops && p.ops[FirstSame(p.ops, c)] != c
  {
    hide Keep, OpHash;
    var f := FirstSame(p.ops, c);
    var drop := CommittedDrop(p, cs);
    KeepExact(p.ops, drop, c);
    if f < |p.ops| {
      assert Confirms(p.ops, c, f);
      assert f in drop;
    }
    if c in p.ops {
      var i :| 0 <= i < |p.ops| && p.ops[i] == c;
      assert Same(p.ops[i], c) && f <= i;
      assert forall j | 0 <= j < |p.ops| && p.ops[j] == c :: j == i;
      if f < i {
        assert p.ops[f] != c;
        LaterStays(p, cs, f, i);
      }
    }
  }

  /** Behind an equal operation, a senderless one is confirmed by nothing. */
  lemma LaterStays(p: State, cs: seq<Operation>, f: nat, i: nat)
    requires f < i < |p.ops| && Same(p.ops[f], p.ops[i]) && Senders(p.ops[i].payload) == []
    ensures i !in CommittedDrop(p, cs)
  {
    forall c | c in cs
      ensures !Confirms(p.ops, c, i)
    {
      assert Same(p.ops[f], c) == Same(p.ops[i], c);
      assert Pairs(p.ops[i]) == {};
    }
  }

  /** Except for address transfers, no committed operation stays pending. */
  lemma CommittedGone(H: Digest, p: State, cs: seq<Operation>, c: Operation)
    requires DistinctHashes(H, p.ops) && c in cs && !c.payload.AddressTransaction?
    ensures c !in Without(p, CommittedDrop(p, cs)).ops
  {
    hide OpHash, Keep, FirstSame, DistinctHashes;
    if Senders(c.payload) == [] {
      CommittedSenderless(H, p, cs, c);
      if FirstSame(p.ops, c) < |p.ops| {
        SameFound(p.ops, c);
      }
    } else {
      var s := Senders(c.payload)[0];
      var k := (s.account, s.nOperation);
      CommittedNonces(p, cs, c, k);
      var rest := Without(p, CommittedDrop(p, cs)).ops;
      assert forall i | 0 <= i < |rest| && rest[i] == c :: HeldAt(rest, i, k);
    }
  }

  lemma SameFound(ops: seq<Operation>, c: Operation)
    requires FirstSame(ops, c) < |ops| && !c.payload.AddressTransaction?
    ensures ops[FirstSame(ops, c)] == c
  {
    assert Same(ops[FirstSame(ops, c)], c);
  }
}
