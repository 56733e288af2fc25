/** The mempool as a plain list: what each operation on it does, and what every run keeps. */
module Pool {
  import opened Bytes
  import opened Hashing
  import opened Operations
  import opened PayloadCodec
  import opened Blocks
  import opened Admission
  import opened PoolIndex

  /** What is fixed for the life of a pool. */
  datatype Env = Env(config: Config, H: Digest, verify: Verify)

  datatype State = State(ops: seq<Operation>, times: seq<u64>, admin: Option<Key>)

  predicate HashTaken(H: Digest, ops: seq<Operation>, h: Hash) {
    exists i | 0 <= i < |ops| :: OpHash(H, ops[i]) == h
  }

  // ---- Admission ----

  /** The first sender whose nonce is already pending is reported. */
  function NoDuplicates(ops: seq<Operation>, ss: seq<Sender>): Verdict {
    if ss == [] then Success(())
    else if Tracked(ops, (ss[0].account, ss[0].nOperation)) then Failure(DuplicateOperation(ss[0].account, ss[0].nOperation))
    else NoDuplicates(ops, ss[1..])
  }

  function Admissible(env: Env, p: State, op: Operation, lookup: Lookup): Verdict {
    if |p.ops| >= env.config.maxOperations then Failure(MempoolFull)
    else if op.chainId != env.config.chainId then Failure(WrongChainId(env.config.chainId, op.chainId))
    else if HashTaken(env.H, p.ops, OpHash(env.H, op)) then Failure(DuplicateOpHash) else
    var _ :- ValidateSignatures(env.verify, p.admin, op, lookup);
    var _ :- NoDuplicates(p.ops, Senders(op.payload));
    var _ :- CheckNonces(Nonces(p.ops), lookup, NoncePairs(op.payload));
    ValidateBalanceAndFee(env.config, op.payload, lookup)
  }

  // ---- Removals ----

  function Without(p: State, drop: set<nat>): State {
    p.(ops := Keep(p.ops, drop), times := Keep(p.times, drop))
  }

  /** The first payload has a nonce above one the second has for the same account. */
  predicate Above(p: Payload, q: Payload) {
    exists k, l | k in NoncePairs(p) && l in NoncePairs(q) :: k.0 == l.0 && k.1 > l.1
  }

  function Cutoff(config: Config, now: u64): u64 {
    if now < config.ttlSeconds then 0 else now - config.ttlSeconds
  }

  function Expired(p: State, cutoff: u64): set<nat> {
    set i | 0 <= i < |p.times| && p.times[i] < cutoff
  }

  /** Unexpired operations with a nonce above an expired one of the same account. */
  function Orphans(p: State, expired: set<nat>): set<nat> {
    set i | 0 <= i < |p.ops| && i !in expired && OrphanedBy(p.ops, i, expired)
  }

  predicate OrphanedBy(ops: seq<Operation>, i: nat, gone: set<nat>)
    requires i < |ops|
  {
    exists e | e in gone :: e < |ops| && Above(ops[i].payload, ops[e].payload)
  }

  function ExpiredDrop(config: Config, p: State, now: u64): set<nat> {
    if config.ttlSeconds == 0 then {} else
    var x := Expired(p, Cutoff(config, now));
    x + Orphans(p, x)
  }

  predicate IsStale(op: Operation, lookup: Lookup) {
    exists s | s in Senders(op.payload) ::
      lookup(s.account).Success? && lookup(s.account).value.Some? && s.nOperation < lookup(s.account).value.value.nOperation
  }

  function StaleDrop(p: State, lookup: Lookup): set<nat> {
    set i | 0 <= i < |p.ops| && IsStale(p.ops[i], lookup)
  }

  predicate Uses(op: Operation, a: u64) { exists k | k in NoncePairs(op.payload) :: k.0 == a }

  function SenderDrop(p: State, a: u64): set<nat> {
    set i | 0 <= i < |p.ops| && Uses(p.ops[i], a)
  }

  function NonceDrop(p: State, k: Pair): set<nat> {
    set i | 0 <= i < |p.ops| && HeldAt(p.ops, i, k)
  }

  /** Address receivers compare by address hash alone, so equality of operations overlooks their public keys. */
  function Blank(op: Operation): Operation {
    match op.payload
    case AddressTransaction(ss, rs, fee) =>
      op.(payload := AddressTransaction(ss, seq(|rs|, i requires 0 <= i < |rs| => rs[i].(publicKey := None)), fee))
    case _ => op
  }

  predicate Same(a: Operation, b: Operation) { Blank(a) == Blank(b) }

  function FirstSame(ops: seq<Operation>, c: Operation): (i: nat)
    ensures i <= |ops| && (i < |ops| ==> Same(ops[i], c)) && forall j | 0 <= j < i :: !Same(ops[j], c)
  {
    if ops == [] then 0 else if Same(ops[0], c) then 0 else 1 + FirstSame(ops[1..], c)
  }

  /** The committed operation takes out position `i`. */
  predicate Confirms(ops: seq<Operation>, c: Operation, i: nat)
    requires i < |ops|
  {
    if Senders(c.payload) == [] then i == FirstSame(ops, c) else Pairs(c) * Pairs(ops[i]) != {}
  }

  predicate Confirmed(ops: seq<Operation>, cs: seq<Operation>, i: nat)
    requires i < |ops|
  {
    exists c | c in cs :: Confirms(ops, c, i)
  }

  function CommittedDrop(p: State, cs: seq<Operation>): set<nat> {
    set i | 0 <= i < |p.ops| && Confirmed(p.ops, cs, i)
  }

  function Surplus(config: Config, p: State): nat {
    if |p.ops| > config.maxOperations then |p.ops| - config.maxOperations else 0
  }

  /** The first `n` positions. */
  function Oldest(n: nat): (r: set<nat>)
    ensures forall i: nat :: i in r <==> i < n
  {
    if n == 0 then {} else Oldest(n - 1) + {n - 1}
  }

  // ---- Runs ----

  datatype Event =
    | Admit(op: Operation, lookup: Lookup, now: u64)
    | EvictExpired(now: u64)
    | EvictLowest
    | Remove(account: u64, nOperation: u64)
    | RemoveStale(lookup: Lookup)
    | RemoveCommitted(committed: seq<Operation>)
    | EvictSender(account: u64)
    | Clear
    | SetAdmin(key: Key)

  /** The positions an event removes; admission and configuration remove none. */
  function Drop(env: Env, p: State, e: Event): set<nat> {
    match e
    case EvictExpired(now) => ExpiredDrop(env.config, p, now)
    case EvictLowest => Oldest(Surplus(env.config, p))
    case Remove(a, n) => NonceDrop(p, (a, n))
    case RemoveStale(lookup) => StaleDrop(p, lookup)
    case RemoveCommitted(cs) => CommittedDrop(p, cs)
    case EvictSender(a) => SenderDrop(p, a)
    case Clear => Oldest(|p.ops|)
    case _ => {}
  }

  function Next(env: Env, p: State, e: Event): State {
    match e
    case Admit(op, lookup, now) =>
      if Admissible(env, p, op, lookup).Success? then p.(ops := p.ops + [op], times := p.times + [now]) else p
    case SetAdmin(k) => p.(admin := Some(k))
    case _ => Without(p, Drop(env, p, e))
  }

  function Run(env: Env, p: State, es: seq<Event>): State {
    if es == [] then p else Next(env, Run(env, p, es[..|es| - 1]), es[|es| - 1])
  }

  /** Times run parallel to operations, the bound holds, and hashes, nonces and chain are as they should be. */
  ghost predicate PoolOk(env: Env, p: State) {
    && |p.times| == |p.ops| <= env.config.maxOperations
    && DistinctHashes(env.H, p.ops)
    && UniquePairs(p.ops)
    && forall op | op in p.ops :: op.chainId == env.config.chainId
  }

  lemma {:induction false} NoDuplicatesExact(ops: seq<Operation>, ss: seq<Sender>)
    ensures NoDuplicates(ops, ss).Success? <==> forall s | s in ss :: !Tracked(ops, (s.account, s.nOperation))
  {
    hide Tracked;
    if ss != [] {
      NoDuplicatesExact(ops, ss[1..]);
      assert ss == [ss[0]] + ss[1..];
    }
  }

  /** Admission as the conjunction of its checks. */
  lemma AdmissibleParts(env: Env, p: State, op: Operation, lookup: Lookup)
    ensures Admissible(env, p, op, lookup).Success? <==>
            && |p.ops| < env.config.maxOperations && op.chainId == env.config.chainId
            && !HashTaken(env.H, p.ops, OpHash(env.H, op))
            && Authorized(env.verify, p.admin, op, lookup)
            && (forall k | k in Pairs(op) :: !Tracked(p.ops, k))
            && (forall k | k in NoncePairs(op.payload) :: CheckNonce(Nonces(p.ops), lookup, k).Success?)
            && ValidateBalanceAndFee(env.config, op.payload, lookup).Success?
  {
    hide OpHash, HashTaken, Tracked, ValidateSignatures, Authorized, ValidateBalanceAndFee, CheckNonce, Nonces, NoncePairs, CheckNonces,
         NoDuplicates;
    SignaturesExact(env.verify, p.admin, op, lookup);
    NoDuplicatesExact(p.ops, Senders(op.payload));
    CheckedAll(Nonces(p.ops), lookup, NoncePairs(op.payload));
  }

  /** An admitted operation brings a new hash and only nonces that were not pending. */
  lemma Admitted(env: Env, p: State, op: Operation, lookup: Lookup)
    requires Admissible(env, p, op, lookup).Success?
    ensures |p.ops| < env.config.maxOperations && op.chainId == env.config.chainId
    ensures !HashTaken(env.H, p.ops, OpHash(env.H, op))
    ensures forall k | k in Pairs(op) :: !Tracked(p.ops, k)
    ensures forall k | k in NoncePairs(op.payload) :: CheckNonce(Nonces(p.ops), lookup, k).Success?
  {
    hide Admissible, OpHash, HashTaken, Tracked, Authorized, ValidateBalanceAndFee, CheckNonce, Nonces, Pairs, NoncePairs;
    AdmissibleParts(env, p, op, lookup);
  }

  lemma {:induction false} Appended(H: Digest, ops: seq<Operation>, op: Operation)
    ensures DistinctHashes(H, ops) && !HashTaken(H, ops, OpHash(H, op)) ==> DistinctHashes(H, ops + [op])
    ensures forall k: Pair :: Tracked(ops + [op], k) <==> Tracked(ops, k) || k in Pairs(op)
    ensures UniquePairs(ops) && (forall k | k in Pairs(op) :: !Tracked(ops, k)) ==> UniquePairs(ops + [op])
  {
    hide OpHash, Pairs;
    var more := ops + [op];
    assert more[..|ops|] == ops && more[..|ops| + 1] == more;
    Prefix(more, |ops|);
    assert forall i, k: Pair | 0 <= i < |ops| :: HeldAt(more, i, k) == HeldAt(ops, i, k);
    if UniquePairs(ops) && (forall k | k in Pairs(op) :: !Tracked(ops, k)) {
      forall i, j, k: Pair | 0 <= i < |more| && 0 <= j < |more| && HeldAt(more, i, k) && HeldAt(more, j, k)
        ensures i == j
      {
        if i < |ops| {
          HeldTracked(ops, i, k);
        }
        if j < |ops| {
          HeldTracked(ops, j, k);
        }
      }
    }
    if DistinctHashes(H, ops) && !HashTaken(H, ops, OpHash(H, op)) {
      forall i, j | 0 <= i < j < |more|
        ensures OpHash(H, more[i]) != OpHash(H, more[j])
      {
        assert more[i] == ops[i];
      }
    }
  }

  lemma WithoutOk(env: Env, p: State, drop: set<nat>)
    requires PoolOk(env, p)
    ensures PoolOk(env, Without(p, drop))
  {
    hide DistinctHashes, UniquePairs;
    KeepInvariants(env.H, p.ops, drop);
  }

  lemma StepOk(env: Env, p: State, e: Event)
    requires PoolOk(env, p)
    ensures PoolOk(env, Next(env, p, e))
  {
    hide DistinctHashes, UniquePairs, HashTaken, Tracked, OpHash, Pairs, Admissible, Drop, Without;
    match e
    case Admit(op, lookup, now) =>
      if Admissible(env, p, op, lookup).Success? {
        Admitted(env, p, op, lookup);
        Appended(env.H, p.ops, op);
      }
    case SetAdmin(_) =>
    case _ => WithoutOk(env, p, Drop(env, p, e));
  }

  /** Every run keeps the pool well formed, whatever happens on chain between steps. */
  lemma {:induction false} RunOk(env: Env, p: State, es: seq<Event>)
    requires PoolOk(env, p)
    ensures PoolOk(env, Run(env, p, es))
  {
    hide PoolOk, Next;
    if es != [] {
      RunOk(env, p, es[..|es| - 1]);
      StepOk(env, Run(env, p, es[..|es| - 1]), es[|es| - 1]);
    }
  }

  /** Nobody is resident who was not there at the start or offered during the run. */
  lemma {:induction false} RunResidents(env: Env, p: State, es: seq<Event>, op: Operation)
    requires op in Run(env, p, es).ops
    ensures op in p.ops || exists k | 0 <= k < |es| :: es[k].Admit? && es[k].op == op
  {
    hide Admissible, Drop, Keep;
    if es != [] {
      var n := |es| - 1;
      var q := Run(env, p, es[..n]);
      if op in q.ops {
        RunResidents(env, p, es[..n], op);
        if k :| 0 <= k < n && es[..n][k].Admit? && es[..n][k].op == op {
          assert es[k] == es[..n][k];
        }
      } else if !es[n].Admit? {
        KeepExact(q.ops, Drop(env, q, es[n]), op);
      }
    }
  }

  // ---- Nonce order ----

  /** A tracked nonce of an admitted operation is behind every pending one, unless the counter wraps. */
  lemma AdmittedAbove(env: Env, p: State, op: Operation, lookup: Lookup, a: u64, m: u64, n: u64)
    requires Admissible(env, p, op, lookup).Success?
    requires (a, n) in Pairs(op) && Tracked(p.ops, (a, m))
    ensures a in Nonces(p.ops) && (Nonces(p.ops)[a] < U64_LAST ==> m < n)
  {
    hide Admissible, Tracked, Nonces, CheckNonce, Pairs, NoncePairs, OnChain, HashTaken;
    Admitted(env, p, op, lookup);
    TrackedIsNonce(op, (a, n));
    PassingNonce(Nonces(p.ops), lookup, (a, n));
    NoncesExact(p.ops);
  }

  lemma TrackedIsNonce(op: Operation, k: Pair)
    requires k in Pairs(op)
    ensures k in NoncePairs(op.payload)
  {
    var ss := Senders(op.payload);
    var i :| 0 <= i < |ss| && (ss[i].account, ss[i].nOperation) == k;
    assert SenderPairs(ss)[i] == k;
  }

  predicate Saturated(ops: seq<Operation>, a: u64) { a in Nonces(ops) && Nonces(ops)[a] == U64_LAST }

  /** Admission keeps the order exactly when none of the operation's accounts has the last nonce pending already. */
  lemma AdmitOrdered(env: Env, p: State, op: Operation, lookup: Lookup)
    requires Ordered(p.ops) && Admissible(env, p, op, lookup).Success?
    ensures Ordered(p.ops + [op]) <==> forall s | s in Senders(op.payload) :: !Saturated(p.ops, s.account)
  {
    hide Admissible, Pairs, Nonces;
    var more := p.ops + [op];
    var last := |p.ops|;
    assert forall i, k: Pair | 0 <= i < last :: HeldAt(more, i, k) == HeldAt(p.ops, i, k);
    assert forall k: Pair :: HeldAt(more, last, k) == (k in Pairs(op));
    if forall s | s in Senders(op.payload) :: !Saturated(p.ops, s.account) {
      forall i, j, a: u64, m: u64, n: u64 | 0 <= i < j < |more| && HeldAt(more, i, (a, m)) && HeldAt(more, j, (a, n))
        ensures m < n
      {
        if j == last {
          assert HeldAt(p.ops, i, (a, m));
          AdmittedAbove(env, p, op, lookup, a, m, n);
          PairSender(op, (a, n));
        } else {
          assert HeldAt(p.ops, i, (a, m)) && HeldAt(p.ops, j, (a, n));
        }
      }
    } else {
      var s :| s in Senders(op.payload) && Saturated(p.ops, s.account);
      NoncesExact(p.ops);
      var i :| 0 <= i < last && HeldAt(p.ops, i, (s.account, U64_LAST));
      SenderPair(op, s);
      assert HeldAt(more, i, (s.account, U64_LAST)) && HeldAt(more, last, (s.account, s.nOperation));
    }
  }

  lemma PairSender(op: Operation, k: Pair)
    requires k in Pairs(op)
    ensures exists s | s in Senders(op.payload) :: s.account == k.0
  {
  }

  lemma SenderPair(op: Operation, s: Sender)
    requires s in Senders(op.payload)
    ensures (s.account, s.nOperation) in Pairs(op)
  {
  }

  /** None of the operation's tracked nonces is the last one there is. */
  predicate BelowLast(op: Operation) { forall s | s in Senders(op.payload) :: s.nOperation < U64_LAST }

  lemma NotSaturated(ops: seq<Operation>, a: u64)
    requires forall op | op in ops :: BelowLast(op)
    ensures !Saturated(ops, a)
  {
    NoncesExact(ops);
    forall i | 0 <= i < |ops|
      ensures !HeldAt(ops, i, (a, U64_LAST))
    {
      assert ops[i] in ops;
    }
  }

  /** On every run, whatever the chain does in between, later operations carry strictly larger nonces of an account. */
  lemma {:induction false} RunOrdered(env: Env, p: State, es: seq<Event>)
    requires Ordered(p.ops)
    requires forall op | op in p.ops :: BelowLast(op)
    requires forall e | e in es && e.Admit? :: BelowLast(e.op)
    ensures Ordered(Run(env, p, es).ops)
    ensures forall op | op in Run(env, p, es).ops :: BelowLast(op)
  {
    hide Ordered, BelowLast, Admissible, Drop, Keep, Saturated;
    if es != [] {
      var n := |es| - 1;
      var q := Run(env, p, es[..n]);
      RunOrdered(env, p, es[..n]);
      var e := es[n];
      if e.Admit? {
        assert BelowLast(e.op);
        if Admissible(env, q, e.op, e.lookup).Success? {
          AdmitOrdered(env, q, e.op, e.lookup);
          forall s | s in Senders(e.op.payload) ensures !Saturated(q.ops, s.account) {
            NotSaturated(q.ops, s.account);
          }
        }
      } else {
        var drop := Drop(env, q, e);
        KeepInvariants(env.H, q.ops, drop);
        forall op | op in Keep(q.ops, drop) ensures op in q.ops {
          KeepExact(q.ops, drop, op);
        }
      }
    }
  }

  // ---- Gap-free chains ----

  /** Every pending nonce is at or above the account's nonce on chain, and its predecessor down to there is pending too. */
  ghost predicate GapFree(ops: seq<Operation>, lookup: Lookup) {
    forall a: u64, n: u64 | Tracked(ops, (a, n)) ::
      n >= OnChain(lookup, a) && (n > OnChain(lookup, a) ==> Tracked(ops, (a, n - 1)))
  }

  /** Each account's pending nonces are exactly the interval from its nonce on chain to the largest pending one. */
  ghost predicate Intervals(ops: seq<Operation>, lookup: Lookup) {
    forall a: u64, n: u64 ::
      Tracked(ops, (a, n)) <==> a in Nonces(ops) && OnChain(lookup, a) <= n <= Nonces(ops)[a]
  }

  lemma {:induction false} Descend(ops: seq<Operation>, lookup: Lookup, a: u64, m: u64, n: u64)
    requires GapFree(ops, lookup) && Tracked(ops, (a, n)) && OnChain(lookup, a) <= m <= n
    ensures Tracked(ops, (a, m))
    decreases n
  {
    hide Tracked;
    if m < n {
      Descend(ops, lookup, a, m, n - 1);
    }
  }

  lemma GapFreeIntervals(ops: seq<Operation>, lookup: Lookup)
    ensures GapFree(ops, lookup) <==> Intervals(ops, lookup)
  {
    hide Tracked, Nonces;
    NoncesExact(ops);
    if GapFree(ops, lookup) {
      forall a: u64, n: u64
        ensures Tracked(ops, (a, n)) <==> a in Nonces(ops) && OnChain(lookup, a) <= n <= Nonces(ops)[a]
      {
        if a in Nonces(ops) && OnChain(lookup, a) <= n <= Nonces(ops)[a] {
          Descend(ops, lookup, a, n, Nonces(ops)[a]);
        }
      }
    }
  }

  /** Nothing that stays uses a nonce above one that goes. */
  ghost predicate Closed(ops: seq<Operation>, drop: set<nat>) {
    forall i, j, a: u64, m: u64, n: u64 |
      0 <= i < |ops| && 0 <= j < |ops| && i in drop && j !in drop && HeldAt(ops, i, (a, m)) && HeldAt(ops, j, (a, n)) :: n <= m
  }

  /** A removal keeps chains gap-free exactly when it takes everything above what it takes. */
  lemma RemovalGapFree(ops: seq<Operation>, lookup: Lookup, drop: set<nat>)
    requires UniquePairs(ops) && GapFree(ops, lookup)
    ensures GapFree(Keep(ops, drop), lookup) <==> Closed(ops, drop)
  {
    hide Keep, Pairs;
    var kept := Keep(ops, drop);
    if Closed(ops, drop) {
      forall a: u64, n: u64 | Tracked(kept, (a, n))
        ensures n >= OnChain(lookup, a) && (n > OnChain(lookup, a) ==> Tracked(kept, (a, n - 1)))
      {
        KeepTracked(ops, drop, (a, n));
        var j :| 0 <= j < |ops| && j !in drop && HeldAt(ops, j, (a, n));
        assert Tracked(ops, (a, n));
        if n > OnChain(lookup, a) {
          var i :| 0 <= i < |ops| && HeldAt(ops, i, (a, n - 1));
          KeepTracked(ops, drop, (a, n - 1));
        }
      }
    }
    if GapFree(kept, lookup) {
      forall i, j, a: u64, m: u64, n: u64 |
        0 <= i < |ops| && 0 <= j < |ops| && i in drop && j !in drop && HeldAt(ops, i, (a, m)) && HeldAt(ops, j, (a, n))
        ensures n <= m
      {
        KeepTracked(ops, drop, (a, n));
        KeepTracked(ops, drop, (a, m));
        assert Tracked(ops, (a, m));
        if m < n {
          Descend(kept, lookup, a, m, n);
        }
      }
    }
  }

  /** The first operation has a tracked nonce above one the second has for the same account. */
  predicate TrackedAbove(a: Operation, b: Operation) {
    exists k, l | k in Pairs(a) && l in Pairs(b) :: k.0 == l.0 && k.1 > l.1
  }

  lemma TrackedIsAbove(a: Operation, b: Operation)
    requires TrackedAbove(a, b)
    ensures Above(a.payload, b.payload)
  {
    hide Pairs, NoncePairs;
    var k, l :| k in Pairs(a) && l in Pairs(b) && k.0 == l.0 && k.1 > l.1;
    TrackedIsNonce(a, k);
    TrackedIsNonce(b, l);
  }

  lemma AboveHeld(ops: seq<Operation>, i: nat, j: nat)
    requires i < |ops| && j < |ops|
    ensures TrackedAbove(ops[j], ops[i]) <==> exists a: u64, m: u64, n: u64 :: HeldAt(ops, i, (a, m)) && HeldAt(ops, j, (a, n)) && m < n
  {
    hide Pairs;
    if a: u64, m: u64, n: u64 :| HeldAt(ops, i, (a, m)) && HeldAt(ops, j, (a, n)) && m < n {
      assert (a, n) in Pairs(ops[j]) && (a, m) in Pairs(ops[i]);
    }
    if TrackedAbove(ops[j], ops[i]) {
      var k, l :| k in Pairs(ops[j]) && l in Pairs(ops[i]) && k.0 == l.0 && k.1 > l.1;
      assert HeldAt(ops, i, (k.0, l.1)) && HeldAt(ops, j, (k.0, k.1));
    }
  }

  lemma ClosedByPosition(ops: seq<Operation>, drop: set<nat>)
    ensures Closed(ops, drop) <==>
            forall i, j | 0 <= i < |ops| && 0 <= j < |ops| && i in drop && TrackedAbove(ops[j], ops[i]) :: j in drop
  {
    hide HeldAt, TrackedAbove;
    forall i, j | 0 <= i < |ops| && 0 <= j < |ops|
      ensures TrackedAbove(ops[j], ops[i]) <==> exists a: u64, m: u64, n: u64 :: HeldAt(ops, i, (a, m)) && HeldAt(ops, j, (a, n)) && m < n
    {
      AboveHeld(ops, i, j);
    }
  }

  predicate TrackedAboveSome(ops: seq<Operation>, j: nat, gone: set<nat>)
    requires j < |ops|
  {
    exists i | i in gone :: i < |ops| && TrackedAbove(ops[j], ops[i])
  }

  /** What a second pass of the cascade would take: operations with a sender nonce above an orphan's that one pass leaves. */
  function SecondWave(p: State, expired: set<nat>): set<nat> {
    set j | 0 <= j < |p.ops| && j !in expired + Orphans(p, expired) && TrackedAboveSome(p.ops, j, Orphans(p, expired))
  }

  lemma CascadeClosed(p: State, expired: set<nat>)
    ensures Closed(p.ops, expired + Orphans(p, expired)) <==> SecondWave(p, expired) == {}
  {
    hide Closed, Above, TrackedAbove;
    var orphans := Orphans(p, expired);
    var drop := expired + orphans;
    ClosedByPosition(p.ops, drop);
    if SecondWave(p, expired) == {} {
      forall i, j | 0 <= i < |p.ops| && 0 <= j < |p.ops| && i in drop && TrackedAbove(p.ops[j], p.ops[i])
        ensures j in drop
      {
        if i in expired {
          TrackedIsAbove(p.ops[j], p.ops[i]);
          assert OrphanedBy(p.ops, j, expired);
        } else {
          assert TrackedAboveSome(p.ops, j, orphans);
          assert j in drop || j in SecondWave(p, expired);
        }
      }
    } else {
      var j :| j in SecondWave(p, expired);
      var i :| i in orphans && i < |p.ops| && TrackedAbove(p.ops[j], p.ops[i]);
    }
  }

  /**
   * The expiry cascade leaves every account's pending nonces an unbroken chain exactly when a second pass would find
   * nothing more: operations with several senders can be orphaned without their other accounts' successors going too.
   */
  lemma ExpiryGapFree(env: Env, p: State, lookup: Lookup, now: u64)
    requires PoolOk(env, p) && GapFree(p.ops, lookup) && env.config.ttlSeconds > 0
    ensures GapFree(Next(env, p, EvictExpired(now)).ops, lookup) <==> SecondWave(p, Expired(p, Cutoff(env.config, now))) == {}
  {
    hide GapFree, UniquePairs, DistinctHashes, Keep, Orphans, SecondWave, Closed;
    var x := Expired(p, Cutoff(env.config, now));
    RemovalGapFree(p.ops, lookup, x + Orphans(p, x));
    CascadeClosed(p, x);
  }

  // ---- Single-sender transfers on a fixed chain ----

  /** All nonces of a transfer are sender nonces, and this one has one sender. */
  predicate Simple(op: Operation) {
    (op.payload.Transaction? || op.payload.AddressTransaction? || op.payload.MultiOperation?) && |Senders(op.payload)| == 1
  }

  lemma SimplePairs(op: Operation, k: Pair)
    requires Simple(op)
    ensures k in NoncePairs(op.payload) <==> k in Pairs(op)
    ensures k in Pairs(op) <==> k == (Senders(op.payload)[0].account, Senders(op.payload)[0].nOperation)
  {
    var ss := Senders(op.payload);
    assert forall s | s in ss :: s == ss[0];
    assert ss[0] in ss && SenderPairs(ss)[0] in NoncePairs(op.payload);
  }

  lemma SimpleAbove(a: Operation, b: Operation)
    requires Simple(a) && Simple(b)
    ensures Above(a.payload, b.payload) <==>
            Senders(a.payload)[0].account == Senders(b.payload)[0].account
            && Senders(a.payload)[0].nOperation > Senders(b.payload)[0].nOperation
  {
    hide NoncePairs, Pairs;
    var k, l := (Senders(a.payload)[0].account, Senders(a.payload)[0].nOperation), (Senders(b.payload)[0].account, Senders(b.payload)[0].nOperation);
    SimplePairs(a, k);
    SimplePairs(b, l);
    forall x | x in NoncePairs(a.payload) ensures x == k {
      SimplePairs(a, x);
    }
    forall x | x in NoncePairs(b.payload) ensures x == l {
      SimplePairs(b, x);
    }
  }

  lemma SimpleExpiryClosed(p: State, expired: set<nat>)
    requires forall op | op in p.ops :: Simple(op)
    ensures Closed(p.ops, expired + Orphans(p, expired))
  {
    hide Closed, Above, Simple, TrackedAbove;
    CascadeClosed(p, expired);
    forall j | 0 <= j < |p.ops| && TrackedAboveSome(p.ops, j, Orphans(p, expired))
      ensures OrphanedBy(p.ops, j, expired)
    {
      var i :| i in Orphans(p, expired) && i < |p.ops| && TrackedAbove(p.ops[j], p.ops[i]);
      var e :| e in expired && e < |p.ops| && Above(p.ops[i].payload, p.ops[e].payload);
      assert p.ops[i] in p.ops && p.ops[j] in p.ops && p.ops[e] in p.ops;
      TrackedIsAbove(p.ops[j], p.ops[i]);
      SimpleAbove(p.ops[j], p.ops[i]);
      SimpleAbove(p.ops[i], p.ops[e]);
      SimpleAbove(p.ops[j], p.ops[e]);
    }
  }

  lemma SimpleSenderClosed(p: State, b: u64)
    requires forall op | op in p.ops :: Simple(op)
    ensures Closed(p.ops, SenderDrop(p, b))
  {
    hide Pairs, NoncePairs;
    var drop := SenderDrop(p, b);
    forall i, j, a: u64, m: u64, n: u64 | 0 <= i < |p.ops| && 0 <= j < |p.ops| && i in drop
      && HeldAt(p.ops, i, (a, m)) && HeldAt(p.ops, j, (a, n))
      ensures j in drop
    {
      assert p.ops[i] in p.ops && p.ops[j] in p.ops;
      var k :| k in NoncePairs(p.ops[i].payload) && k.0 == b;
      SimplePairs(p.ops[i], k);
      SimplePairs(p.ops[i], (a, m));
      SimplePairs(p.ops[j], (a, n));
      assert Uses(p.ops[j], b);
    }
  }

  /** An admitted sender nonce is the chain's, or follows a pending one directly. */
  lemma AdmittedFollows(env: Env, p: State, op: Operation, lookup: Lookup, a: u64, n: u64)
    requires Admissible(env, p, op, lookup).Success? && (a, n) in Pairs(op)
    ensures n >= OnChain(lookup, a) && (n > OnChain(lookup, a) ==> Tracked(p.ops, (a, n - 1)))
  {
    hide Admissible, Tracked, Nonces, CheckNonce, Pairs, NoncePairs, OnChain, HashTaken;
    Admitted(env, p, op, lookup);
    TrackedIsNonce(op, (a, n));
    PassingNonce(Nonces(p.ops), lookup, (a, n));
    NoncesExact(p.ops);
  }

  /** Admission extends each account's chain by its next nonce, or starts it at the chain's nonce. */
  lemma AdmitGapFree(env: Env, p: State, op: Operation, lookup: Lookup)
    requires GapFree(p.ops, lookup) && Admissible(env, p, op, lookup).Success?
    ensures GapFree(p.ops + [op], lookup)
  {
    hide Admissible, Tracked, Pairs, OnChain, HashTaken, DistinctHashes, UniquePairs;
    Appended(env.H, p.ops, op);
    forall a: u64, n: u64 | Tracked(p.ops + [op], (a, n))
      ensures n >= OnChain(lookup, a) && (n > OnChain(lookup, a) ==> Tracked(p.ops + [op], (a, n - 1)))
    {
      if (a, n) in Pairs(op) {
        AdmittedFollows(env, p, op, lookup, a, n);
      }
    }
  }

  /** Events of the fixed-chain setting: admissions of simple transfers against one chain state, expiry and quarantine. */
  ghost predicate Steady(e: Event, lookup: Lookup) {
    match e
    case Admit(op, l, _) => Simple(op) && l == lookup
    case EvictExpired(_) => true
    case EvictSender(_) => true
    case SetAdmin(_) => true
    case _ => false
  }

  lemma SteadyStep(env: Env, p: State, e: Event, lookup: Lookup)
    requires PoolOk(env, p) && GapFree(p.ops, lookup) && (forall op | op in p.ops :: Simple(op)) && Steady(e, lookup)
    ensures GapFree(Next(env, p, e).ops, lookup) && forall op | op in Next(env, p, e).ops :: Simple(op)
  {
    hide GapFree, UniquePairs, DistinctHashes, Keep, Admissible, Closed, Simple, Orphans, SenderDrop;
    match e
    case Admit(op, _, _) =>
      if Admissible(env, p, op, lookup).Success? {
        AdmitGapFree(env, p, op, lookup);
      }
    case SetAdmin(_) =>
    case EvictExpired(now) =>
      if env.config.ttlSeconds == 0 {
        KeepAll(p.ops);
      } else {
        var x := Expired(p, Cutoff(env.config, now));
        var drop := x + Orphans(p, x);
        SimpleExpiryClosed(p, x);
        RemovalGapFree(p.ops, lookup, drop);
        KeptSimple(p.ops, drop);
      }
    case EvictSender(a) =>
      var drop := SenderDrop(p, a);
      SimpleSenderClosed(p, a);
      RemovalGapFree(p.ops, lookup, drop);
      KeptSimple(p.ops, drop);
  }

  lemma KeptSimple(ops: seq<Operation>, drop: set<nat>)
    requires forall op | op in ops :: Simple(op)
    ensures forall op | op in Keep(ops, drop) :: Simple(op)
  {
    forall op | op in Keep(ops, drop)
      ensures Simple(op)
    {
      KeepExact(ops, drop, op);
    }
  }

  /**
   * With the chain fixed and single-sender transfers, any run of admissions, expiries and quarantines keeps each
   * account's pending nonces exactly the interval that starts at its nonce on chain.
   */
  lemma {:induction false} SteadyRun(env: Env, p: State, es: seq<Event>, lookup: Lookup)
    requires PoolOk(env, p) && GapFree(p.ops, lookup) && (forall op | op in p.ops :: Simple(op))
    requires forall e | e in es :: Steady(e, lookup)
    ensures GapFree(Run(env, p, es).ops, lookup) && forall op | op in Run(env, p, es).ops :: Simple(op)
    ensures Intervals(Run(env, p, es).ops, lookup)
  {
    hide PoolOk, GapFree, Simple, Steady, Next, Intervals;
    GapFreeIntervals(Run(env, p, es).ops, lookup);
    if es != [] {
      var n := |es| - 1;
      SteadyRun(env, p, es[..n], lookup);
      RunOk(env, p, es[..n]);
      SteadyStep(env, Run(env, p, es[..n]), es[n], lookup);
    }
  }

  // ---- Nonces the index does not track ----

  /** A nonce the operation uses up although no sender of it carries it: a single account's, or a data operation's own. */
  predicate Untracked(op: Operation, k: Pair) { k in NoncePairs(op.payload) && k !in Pairs(op) }

  predicate UsedAt(ops: seq<Operation>, i: nat, k: Pair) { i < |ops| && k in NoncePairs(ops[i].payload) }

  /** In a well-formed pool two residents use one nonce only if one of them does not track it. */
  lemma SharedNonce(env: Env, p: State, i: nat, j: nat, k: Pair)
    requires PoolOk(env, p) && i < j && UsedAt(p.ops, i, k) && UsedAt(p.ops, j, k)
    ensures Untracked(p.ops[i], k) || Untracked(p.ops[j], k)
  {
    hide NoncePairs, Pairs;
    assert !(HeldAt(p.ops, i, k) && HeldAt(p.ops, j, k));
  }

  /**
   * An admitted operation uses a nonce some resident uses already exactly when a resident uses it untracked; unless the
   * account has the last 64-bit nonce pending, a tracked one would have been refused.
   */
  lemma AdmitShares(env: Env, p: State, op: Operation, lookup: Lookup, k: Pair)
    requires Admissible(env, p, op, lookup).Success? && k in NoncePairs(op.payload) && !Saturated(p.ops, k.0)
    ensures (exists i | 0 <= i < |p.ops| :: UsedAt(p.ops, i, k)) <==> exists i | 0 <= i < |p.ops| :: UsedAt(p.ops, i, k) && Untracked(p.ops[i], k)
  {
    hide Admissible, NoncePairs, Pairs, CheckNonce, Nonces, Tracked, OnChain, HashTaken, OpHash;
    Admitted(env, p, op, lookup);
    PassingNonce(Nonces(p.ops), lookup, k);
    NoncesExact(p.ops);
    if i :| 0 <= i < |p.ops| && UsedAt(p.ops, i, k) {
      if HeldAt(p.ops, i, k) {
        HeldTracked(p.ops, i, k);
      }
      assert UsedAt(p.ops, i, k) && Untracked(p.ops[i], k);
    }
  }
}
