/** Every operation of the mempool in terms of payloads, nonces and the chain: who is admitted, and who is left. */
module PoolRules {
  import opened Bytes
  import opened Hashing
  import opened Operations
  import opened PayloadCodec
  import opened Blocks
  import opened Admission
  import opened AdmissionRules
  import opened PoolIndex
  import opened Pool
  import opened Removals
  import Mempool

  // ---- Admission ----

  /** Some resident's sender carries this nonce. */
  predicate Pending(ops: seq<Operation>, a: u64, n: u64) { exists i | 0 <= i < |ops| :: Carries(ops[i].payload, a, n) }

  lemma PairsCarried(op: Operation, a: u64, n: u64)
    ensures (a, n) in Pairs(op) <==> Carries(op.payload, a, n)
  {
    hide Carries, Senders;
    UsedExact(op.payload, a, n);
  }

  lemma TrackedPending(ops: seq<Operation>, a: u64, n: u64)
    ensures Tracked(ops, (a, n)) <==> Pending(ops, a, n)
  {
    hide Pairs, Carries;
    forall i | 0 <= i < |ops|
      ensures HeldAt(ops, i, (a, n)) <==> Carries(ops[i].payload, a, n)
    {
      PairsCarried(ops[i], a, n);
    }
  }

  /** For each account with a pending sender nonce the largest one, and nothing else. */
  ghost predicate Largest(ops: seq<Operation>, m: map<u64, u64>) {
    && (forall a | a in m :: Pending(ops, a, m[a]))
    && (forall a: u64, n: u64 | Pending(ops, a, n) :: a in m && n <= m[a])
  }

  lemma NoncesLargest(ops: seq<Operation>)
    ensures Largest(ops, Nonces(ops))
  {
    hide Tracked, Pending, Nonces;
    NoncesExact(ops);
    forall a: u64, n: u64 ensures Tracked(ops, (a, n)) <==> Pending(ops, a, n) {
      TrackedPending(ops, a, n);
    }
  }

  /**
   * An operation is admitted exactly when there is room, the chain id is the pool's, no resident has its hash, everybody
   * concerned has signed, none of its senders' nonces is pending, every nonce it uses up is the one due, and its value, the
   * accounts' states and its fee are right.
   */
  lemma AdmissibleExact(env: Env, p: State, op: Operation, lookup: Lookup, largest: map<u64, u64>)
    requires Largest(p.ops, largest)
    ensures Admissible(env, p, op, lookup).Success? <==>
            && |p.ops| < env.config.maxOperations && op.chainId == env.config.chainId
            && (forall i | 0 <= i < |p.ops| :: OpHash(env.H, p.ops[i]) != OpHash(env.H, op))
            && SignedRight(env.verify, p.admin, op, lookup)
            && (forall a: u64, n: u64 | Carries(op.payload, a, n) :: !Pending(p.ops, a, n))
            && (forall a: u64, n: u64 | UsesUp(op.payload, a, n) :: NonceDue(largest, lookup, a, n))
            && ValueRight(env.config, op.payload, lookup)
  {
    hide Admissible, OpHash, SignedRight, Authorized, Carries, Pending, UsesUp, NonceDue, ValueRight, ValidateBalanceAndFee, CheckNonce,
         Nonces, Pairs, NoncePairs, Tracked, Largest, HashTaken;
    AdmissibleParts(env, p, op, lookup);
    SignaturesExact(env.verify, p.admin, op, lookup);
    SignedExact(env.verify, p.admin, op, lookup);
    ValueExact(env.config, op.payload, lookup);
    assert largest == Nonces(p.ops) by {
      NoncesLargest(p.ops);
      LargestUnique(p.ops, largest, Nonces(p.ops));
    }
    FreshMeans(p.ops, op);
    AllDue(largest, op.payload, lookup);
    HashMeans(env.H, p.ops, OpHash(env.H, op));
  }

  lemma HashMeans(H: Digest, ops: seq<Operation>, h: Hash)
    ensures HashTaken(H, ops, h) <==> !forall i | 0 <= i < |ops| :: OpHash(H, ops[i]) != h
  {
    hide OpHash;
  }

  lemma FreshMeans(ops: seq<Operation>, op: Operation)
    ensures (forall k | k in Pairs(op) :: !Tracked(ops, k)) <==> forall a: u64, n: u64 | Carries(op.payload, a, n) :: !Pending(ops, a, n)
  {
    hide Pairs, Tracked, Carries, Pending;
    forall a: u64, n: u64
      ensures ((a, n) in Pairs(op) <==> Carries(op.payload, a, n)) && (Tracked(ops, (a, n)) <==> Pending(ops, a, n))
    {
      PairsCarried(op, a, n);
      TrackedPending(ops, a, n);
    }
    if k :| k in Pairs(op) && Tracked(ops, k) {
      assert k == (k.0, k.1);
      assert Carries(op.payload, k.0, k.1) && Pending(ops, k.0, k.1);
    }
  }

  lemma AllDue(m: map<u64, u64>, p: Payload, lookup: Lookup)
    ensures (forall k | k in NoncePairs(p) :: CheckNonce(m, lookup, k).Success?) <==>
            forall a: u64, n: u64 | UsesUp(p, a, n) :: NonceDue(m, lookup, a, n)
  {
    hide NoncePairs, CheckNonce, UsesUp, NonceDue;
    forall a: u64, n: u64
      ensures ((a, n) in NoncePairs(p) <==> UsesUp(p, a, n)) && (CheckNonce(m, lookup, (a, n)).Success? <==> NonceDue(m, lookup, a, n))
    {
      UsedExact(p, a, n);
      DueExact(m, lookup, a, n);
    }
    if k :| k in NoncePairs(p) && !CheckNonce(m, lookup, k).Success? {
      assert k == (k.0, k.1);
      assert UsesUp(p, k.0, k.1) && !NonceDue(m, lookup, k.0, k.1);
    }
  }

  lemma LargestUnique(ops: seq<Operation>, a: map<u64, u64>, b: map<u64, u64>)
    requires Largest(ops, a) && Largest(ops, b)
    ensures a == b
  {
    hide Pending;
    assert a.Keys == b.Keys;
  }

  /** A full pool, a foreign chain and a known hash are reported in this order, before anything is looked up. */
  lemma RefusedFirst(env: Env, p: State, op: Operation, lookup: Lookup)
    ensures |p.ops| >= env.config.maxOperations ==> Admissible(env, p, op, lookup) == Failure(MempoolFull)
    ensures |p.ops| < env.config.maxOperations && op.chainId != env.config.chainId ==>
              Admissible(env, p, op, lookup) == Failure(WrongChainId(env.config.chainId, op.chainId))
    ensures |p.ops| < env.config.maxOperations && op.chainId == env.config.chainId
            && (exists i | 0 <= i < |p.ops| :: OpHash(env.H, p.ops[i]) == OpHash(env.H, op)) ==>
              Admissible(env, p, op, lookup) == Failure(DuplicateOpHash)
  {
    hide OpHash, ValidateSignatures, NoDuplicates, CheckNonces, ValidateBalanceAndFee;
  }

  predicate SignatureError(e: MempoolError) { e.InvalidSignature? || e.SenderNotFound? || e.Storage? || e.AdminKeyNotConfigured? }
  predicate NonceError(e: MempoolError) { e.InvalidNOperation? || e.Storage? }

  lemma {:induction false} SenderErrors(verify: Verify, lookup: Lookup, ss: seq<Sender>, sigs: seq<Sig>, m: Bytes)
    ensures var v := SendersSigned(verify, lookup, ss, sigs, m); v.Failure? ==> SignatureError(v.error)
    decreases |ss|
  {
    if ss != [] && sigs != [] {
      SenderErrors(verify, lookup, ss[1..], sigs[1..], m);
    }
  }

  lemma SignatureErrors(verify: Verify, admin: Option<Key>, op: Operation, lookup: Lookup)
    ensures var v := ValidateSignatures(verify, admin, op, lookup); v.Failure? ==> SignatureError(v.error)
  {
    hide PutStripped, SendersSigned;
    var m := PutStripped(op, []);
    if op.signatures != [] {
      SenderErrors(verify, lookup, Senders(op.payload), op.signatures, m);
      SenderErrors(verify, lookup, Senders(op.payload), op.signatures[1..], m);
    }
  }

  lemma {:induction false} NonceErrors(m: map<u64, u64>, lookup: Lookup, ks: seq<Pair>)
    ensures var v := CheckNonces(m, lookup, ks); v.Failure? ==> NonceError(v.error)
  {
    if ks != [] {
      NonceErrors(m, lookup, ks[1..]);
    }
  }

  /** The first sender whose nonce is pending. */
  predicate FirstPending(ops: seq<Operation>, ss: seq<Sender>, i: nat) {
    && i < |ss| && Pending(ops, ss[i].account, ss[i].nOperation)
    && forall j | 0 <= j < i :: !Pending(ops, ss[j].account, ss[j].nOperation)
  }

  lemma {:induction false} DuplicateReported(ops: seq<Operation>, ss: seq<Sender>, i: nat)
    requires FirstPending(ops, ss, i)
    ensures NoDuplicates(ops, ss) == Failure(DuplicateOperation(ss[i].account, ss[i].nOperation))
    decreases |ss|
  {
    hide Tracked, Pending;
    TrackedPending(ops, ss[0].account, ss[0].nOperation);
    if i > 0 {
      var t := ss[1..];
      assert !Pending(ops, ss[0].account, ss[0].nOperation);
      forall j | 0 <= j < i - 1 ensures !Pending(ops, t[j].account, t[j].nOperation) {
        assert t[j] == ss[j + 1];
      }
      DuplicateReported(ops, t, i - 1);
    }
  }

  /** Past those three: signatures come before pending nonces, those before nonces that are not due, and value and fee last. */
  lemma RefusedNext(env: Env, p: State, op: Operation, lookup: Lookup)
    requires |p.ops| < env.config.maxOperations && op.chainId == env.config.chainId
    requires forall i | 0 <= i < |p.ops| :: OpHash(env.H, p.ops[i]) != OpHash(env.H, op)
    ensures !SignedRight(env.verify, p.admin, op, lookup) ==>
              Admissible(env, p, op, lookup).Failure? && SignatureError(Admissible(env, p, op, lookup).error)
    ensures SignedRight(env.verify, p.admin, op, lookup) ==>
              forall i: nat | FirstPending(p.ops, Senders(op.payload), i) ::
                var s := Senders(op.payload)[i]; Admissible(env, p, op, lookup) == Failure(DuplicateOperation(s.account, s.nOperation))
    ensures SignedRight(env.verify, p.admin, op, lookup) && (forall s | s in Senders(op.payload) :: !Pending(p.ops, s.account, s.nOperation))
            && (exists a: u64, n: u64 :: UsesUp(op.payload, a, n) && !NonceDue(Nonces(p.ops), lookup, a, n)) ==>
              Admissible(env, p, op, lookup).Failure? && NonceError(Admissible(env, p, op, lookup).error)
  {
    hide OpHash, ValidateSignatures, SignedRight, NoDuplicates, CheckNonces, CheckNonce, ValidateBalanceAndFee, Nonces, Tracked, Pending, UsesUp,
         NonceDue, NoncePairs, SignatureError, NonceError, Senders, FirstPending;
    SignedExact(env.verify, p.admin, op, lookup);
    SignatureErrors(env.verify, p.admin, op, lookup);
    NonceErrors(Nonces(p.ops), lookup, NoncePairs(op.payload));
    AllDue(Nonces(p.ops), op.payload, lookup);
    CheckedAll(Nonces(p.ops), lookup, NoncePairs(op.payload));
    NoDuplicatesExact(p.ops, Senders(op.payload));
    forall s | s in Senders(op.payload) ensures Tracked(p.ops, (s.account, s.nOperation)) <==> Pending(p.ops, s.account, s.nOperation) {
      TrackedPending(p.ops, s.account, s.nOperation);
    }
    forall i: nat | FirstPending(p.ops, Senders(op.payload), i)
      ensures i < |Senders(op.payload)|
      ensures NoDuplicates(p.ops, Senders(op.payload))
              == Failure(DuplicateOperation(Senders(op.payload)[i].account, Senders(op.payload)[i].nOperation))
    {
      DuplicateReported(p.ops, Senders(op.payload), i);
      assert i < |Senders(op.payload)| by { PendingIndex(p.ops, Senders(op.payload), i); }
    }
  }

  lemma PendingIndex(ops: seq<Operation>, ss: seq<Sender>, i: nat)
    requires FirstPending(ops, ss, i)
    ensures i < |ss|
  {
  }

  // ---- Removals ----

  /** `q` is `p` with exactly the positions `ps` left, in order. */
  ghost predicate Left(p: State, q: State, ps: seq<nat>) {
    && |p.times| == |p.ops|
    && (forall j, k | 0 <= j < k < |ps| :: ps[j] < ps[k]) && (forall k | 0 <= k < |ps| :: ps[k] < |p.ops|)
    && q == State(Pick(p.ops, ps), Pick(p.times, ps), p.admin)
  }

  lemma LeftOf(p: State, drop: set<nat>) returns (ps: seq<nat>)
    requires |p.times| == |p.ops|
    ensures Left(p, Without(p, drop), ps) && forall i | 0 <= i < |p.ops| :: i in ps <==> i !in drop
  {
    ps := Kept(|p.ops|, drop);
    KeptExact(|p.ops|, drop);
  }

  /** A nonce one of the senders carries is behind the chain. */
  ghost predicate Overtaken(p: Payload, lookup: Lookup) {
    exists a: u64, n: u64 :: Carries(p, a, n) && OnRecord(lookup, a) && n < Of(lookup, a).nOperation
  }

  lemma StaleMeans(op: Operation, lookup: Lookup)
    ensures IsStale(op, lookup) <==> Overtaken(op.payload, lookup)
  {
    hide Carries, Senders;
    if IsStale(op, lookup) {
      var s :| s in Senders(op.payload) && lookup(s.account).Success? && lookup(s.account).value.Some?
        && s.nOperation < lookup(s.account).value.value.nOperation;
      UsedExact(op.payload, s.account, s.nOperation);
    }
    if a: u64, n: u64 :| Carries(op.payload, a, n) && OnRecord(lookup, a) && n < Of(lookup, a).nOperation {
      UsedExact(op.payload, a, n);
    }
  }

  /** Removing stale operations leaves, in order, exactly those without a sender nonce behind the chain. */
  lemma StaleExact(env: Env, p: State, lookup: Lookup) returns (ps: seq<nat>)
    requires |p.times| == |p.ops|
    ensures Left(p, Next(env, p, RemoveStale(lookup)), ps)
    ensures forall i | 0 <= i < |p.ops| :: i in ps <==> !Overtaken(p.ops[i].payload, lookup)
  {
    hide Left, Without, IsStale, Overtaken;
    ps := LeftOf(p, StaleDrop(p, lookup));
    forall i | 0 <= i < |p.ops| ensures IsStale(p.ops[i], lookup) <==> Overtaken(p.ops[i].payload, lookup) {
      StaleMeans(p.ops[i], lookup);
    }
  }

  ghost predicate UsesAccount(p: Payload, a: u64) { exists n: u64 :: UsesUp(p, a, n) }

  lemma UsesMeans(op: Operation, a: u64)
    ensures Uses(op, a) <==> UsesAccount(op.payload, a)
  {
    hide UsesUp, NoncePairs;
    if Uses(op, a) {
      var k :| k in NoncePairs(op.payload) && k.0 == a;
      assert k == (a, k.1);
      UsedExact(op.payload, a, k.1);
    }
    if n: u64 :| UsesUp(op.payload, a, n) {
      UsedExact(op.payload, a, n);
    }
  }

  /** Quarantine leaves, in order, exactly the operations that use up no nonce of the account. */
  lemma SenderExact(env: Env, p: State, a: u64) returns (ps: seq<nat>)
    requires |p.times| == |p.ops|
    ensures Left(p, Next(env, p, EvictSender(a)), ps)
    ensures forall i | 0 <= i < |p.ops| :: i in ps <==> !UsesAccount(p.ops[i].payload, a)
  {
    hide Left, Without, Uses, UsesAccount;
    ps := LeftOf(p, SenderDrop(p, a));
    forall i | 0 <= i < |p.ops| ensures Uses(p.ops[i], a) <==> UsesAccount(p.ops[i].payload, a) {
      UsesMeans(p.ops[i], a);
    }
  }

  /** Removing one nonce leaves, in order, everybody whose senders do not carry it. */
  lemma RemoveExact(env: Env, p: State, a: u64, n: u64) returns (ps: seq<nat>)
    requires |p.times| == |p.ops|
    ensures Left(p, Next(env, p, Event.Remove(a, n)), ps)
    ensures forall i | 0 <= i < |p.ops| :: i in ps <==> !Carries(p.ops[i].payload, a, n)
  {
    hide Left, Without, Carries, Pairs;
    ps := LeftOf(p, NonceDrop(p, (a, n)));
    forall i | 0 <= i < |p.ops| ensures HeldAt(p.ops, i, (a, n)) <==> Carries(p.ops[i].payload, a, n) {
      PairsCarried(p.ops[i], a, n);
    }
  }

  /** Eviction down to the bound leaves the newest operations, as many as the bound allows. */
  lemma LowestExact(env: Env, p: State)
    requires |p.times| == |p.ops|
    ensures var k := if |p.ops| > env.config.maxOperations then |p.ops| - env.config.maxOperations else 0;
            Next(env, p, EvictLowest) == State(p.ops[k..], p.times[k..], p.admin)
  {
    hide Oldest, Keep;
    Mempool.KeepAfter(p.ops, Surplus(env.config, p));
    Mempool.KeepAfter(p.times, Surplus(env.config, p));
  }

  lemma ClearExact(env: Env, p: State)
    requires |p.times| == |p.ops|
    ensures Next(env, p, Clear) == State([], [], p.admin)
  {
    hide Oldest, Keep;
    Mempool.KeepAfter(p.ops, |p.ops|);
    Mempool.KeepAfter(p.times, |p.times|);
  }

  // ---- Committed operations ----

  /** Equal but for the public keys of address receivers. */
  predicate EqualButKeys(a: Operation, b: Operation) {
    || a == b
    || (&& a.payload.AddressTransaction? && b.payload.AddressTransaction?
        && a.opType == b.opType && a.chainId == b.chainId && a.signatures == b.signatures
        && a.payload.senders == b.payload.senders && a.payload.fee == b.payload.fee
        && |a.payload.addressReceivers| == |b.payload.addressReceivers|
        && forall i | 0 <= i < |a.payload.addressReceivers| ::
             var x, y := a.payload.addressReceivers[i], b.payload.addressReceivers[i];
             x.hash == y.hash && x.amount == y.amount && x.payload == y.payload)
  }

  lemma SameMeans(a: Operation, b: Operation)
    ensures Same(a, b) <==> EqualButKeys(a, b)
  {
    if a.payload.AddressTransaction? && b.payload.AddressTransaction? {
      var xs, ys := a.payload.addressReceivers, b.payload.addressReceivers;
      var us, vs := Blank(a).payload.addressReceivers, Blank(b).payload.addressReceivers;
      assert |us| == |xs| && |vs| == |ys|;
      if us == vs {
        forall i | 0 <= i < |xs| ensures xs[i].hash == ys[i].hash && xs[i].amount == ys[i].amount && xs[i].payload == ys[i].payload {
          assert us[i] == vs[i];
        }
      }
      if EqualButKeys(a, b) {
        assert forall i | 0 <= i < |xs| :: us[i] == vs[i];
        assert us == vs;
      }
    }
  }

  ghost predicate SharesNonce(a: Payload, b: Payload) { exists x: u64, n: u64 :: Carries(a, x, n) && Carries(b, x, n) }

  /** Position `i` is the first that equals the committed operation but for public keys, and that one has no senders. */
  ghost predicate FirstTwin(ops: seq<Operation>, c: Operation, i: nat) {
    && i < |ops| && (forall a: u64, n: u64 :: !Carries(c.payload, a, n))
    && EqualButKeys(ops[i], c) && forall j | 0 <= j < i :: !EqualButKeys(ops[j], c)
  }

  lemma ConfirmsMeans(ops: seq<Operation>, c: Operation, i: nat)
    requires i < |ops|
    ensures Confirms(ops, c, i) <==> SharesNonce(c.payload, ops[i].payload) || FirstTwin(ops, c, i)
  {
    hide Carries, EqualButKeys, Same, Pairs;
    forall x: u64, n: u64
      ensures (x, n) in Pairs(c) <==> Carries(c.payload, x, n)
      ensures (x, n) in Pairs(ops[i]) <==> Carries(ops[i].payload, x, n)
    {
      PairsCarried(c, x, n);
      PairsCarried(ops[i], x, n);
    }
    forall j | 0 <= j < |ops| ensures Same(ops[j], c) <==> EqualButKeys(ops[j], c) {
      SameMeans(ops[j], c);
    }
    if Senders(c.payload) == [] {
      forall x: u64, n: u64 ensures !Carries(c.payload, x, n) {
        UsedExact(c.payload, x, n);
      }
    } else {
      var s := Senders(c.payload)[0];
      UsedExact(c.payload, s.account, s.nOperation);
      assert Carries(c.payload, s.account, s.nOperation);
      if Pairs(c) * Pairs(ops[i]) != {} {
        var k :| k in Pairs(c) * Pairs(ops[i]);
        assert k == (k.0, k.1);
      }
      if SharesNonce(c.payload, ops[i].payload) {
        var x: u64, n: u64 :| Carries(c.payload, x, n) && Carries(ops[i].payload, x, n);
        assert (x, n) in Pairs(c) * Pairs(ops[i]);
      }
    }
  }

  /** Some committed operation shares a sender nonce with position `i`, or has no senders and meets it first. */
  ghost predicate Settled(ops: seq<Operation>, cs: seq<Operation>, i: nat)
    requires i < |ops|
  {
    exists c | c in cs :: SharesNonce(c.payload, ops[i].payload) || FirstTwin(ops, c, i)
  }

  /** Confirmation leaves, in order, exactly the operations that nothing committed settles. */
  lemma CommittedExact(env: Env, p: State, cs: seq<Operation>) returns (ps: seq<nat>)
    requires |p.times| == |p.ops|
    ensures Left(p, Next(env, p, RemoveCommitted(cs)), ps)
    ensures forall i | 0 <= i < |p.ops| :: i in ps <==> !Settled(p.ops, cs, i)
  {
    hide Left, Without, Confirms, SharesNonce, FirstTwin;
    ps := LeftOf(p, CommittedDrop(p, cs));
    forall i | 0 <= i < |p.ops| ensures Confirmed(p.ops, cs, i) <==> Settled(p.ops, cs, i) {
      forall c | c in cs ensures Confirms(p.ops, c, i) <==> SharesNonce(c.payload, p.ops[i].payload) || FirstTwin(p.ops, c, i) {
        ConfirmsMeans(p.ops, c, i);
      }
    }
  }

  // ---- Expiry ----

  /** Admitted so long ago that its time to live is over. */
  predicate TooOld(p: State, ttl: u64, now: u64, i: nat) { i < |p.times| && p.times[i] + ttl < now }

  /** `m` is the smallest nonce of the account among the operations that are too old. */
  ghost predicate OldestNonce(p: State, ttl: u64, now: u64, a: u64, m: u64) {
    && (exists e | 0 <= e < |p.ops| :: TooOld(p, ttl, now, e) && UsesUp(p.ops[e].payload, a, m))
    && (forall e, n: u64 | 0 <= e < |p.ops| && TooOld(p, ttl, now, e) && UsesUp(p.ops[e].payload, a, n) :: m <= n)
  }

  ghost predicate Orphaned(p: State, ttl: u64, now: u64, i: nat)
    requires i < |p.ops|
  {
    exists a: u64, m: u64, n: u64 :: OldestNonce(p, ttl, now, a, m) && UsesUp(p.ops[i].payload, a, n) && n > m
  }

  lemma FrontMeans(p: State, config: Config, now: u64, a: u64, m: u64)
    requires |p.times| == |p.ops|
    ensures Removals.Front(p.ops, Expired(p, Cutoff(config, now)), a, m) <==> OldestNonce(p, config.ttlSeconds, now, a, m)
  {
    hide UsesUp, NoncePairs;
    var x := Expired(p, Cutoff(config, now));
    forall e | 0 <= e < |p.ops| ensures e in x <==> TooOld(p, config.ttlSeconds, now, e) {
    }
    forall e, n: u64 | 0 <= e < |p.ops| ensures (a, n) in NoncePairs(p.ops[e].payload) <==> UsesUp(p.ops[e].payload, a, n) {
      UsedExact(p.ops[e].payload, a, n);
    }
    if Removals.Front(p.ops, x, a, m) {
      var e :| e in x && e < |p.ops| && (a, m) in NoncePairs(p.ops[e].payload);
      assert TooOld(p, config.ttlSeconds, now, e) && UsesUp(p.ops[e].payload, a, m);
      forall f, n: u64 | 0 <= f < |p.ops| && TooOld(p, config.ttlSeconds, now, f) && UsesUp(p.ops[f].payload, a, n)
        ensures m <= n
      {
        assert f in x && (a, n) in NoncePairs(p.ops[f].payload);
      }
    }
    if OldestNonce(p, config.ttlSeconds, now, a, m) {
      var e :| 0 <= e < |p.ops| && TooOld(p, config.ttlSeconds, now, e) && UsesUp(p.ops[e].payload, a, m);
      assert e in x && (a, m) in NoncePairs(p.ops[e].payload);
      forall f, n: u64 | f in x && f < |p.ops| && (a, n) in NoncePairs(p.ops[f].payload)
        ensures m <= n
      {
        assert TooOld(p, config.ttlSeconds, now, f) && UsesUp(p.ops[f].payload, a, n);
      }
    }
  }

  lemma BeyondMeans(p: State, config: Config, now: u64, i: nat)
    requires |p.times| == |p.ops| && i < |p.ops|
    ensures BeyondFront(p.ops, Expired(p, Cutoff(config, now)), p.ops[i].payload) <==> Orphaned(p, config.ttlSeconds, now, i)
  {
    hide UsesUp, NoncePairs, Removals.Front, OldestNonce;
    var x, q := Expired(p, Cutoff(config, now)), p.ops[i].payload;
    if BeyondFront(p.ops, x, q) {
      var k, m: u64 :| k in NoncePairs(q) && Removals.Front(p.ops, x, k.0, m) && k.1 > m;
      assert k == (k.0, k.1);
      UsedExact(q, k.0, k.1);
      FrontMeans(p, config, now, k.0, m);
    }
    if a: u64, m: u64, n: u64 :| OldestNonce(p, config.ttlSeconds, now, a, m) && UsesUp(q, a, n) && n > m {
      UsedExact(q, a, n);
      FrontMeans(p, config, now, a, m);
      var k := (a, n);
      assert k in NoncePairs(q) && Removals.Front(p.ops, x, k.0, m) && k.1 > m;
    }
  }

  /**
   * Expiry leaves, in order and with their times, exactly the operations that are not too old and use up no nonce above the
   * smallest nonce a too old operation uses up for the same account; a time to live of zero switches it off.
   */
  lemma ExpiryExact(env: Env, p: State, now: u64) returns (ps: seq<nat>)
    requires PoolOk(env, p)
    ensures Left(p, Next(env, p, EvictExpired(now)), ps)
    ensures forall i | 0 <= i < |p.ops| ::
              i in ps <==> (env.config.ttlSeconds == 0
                            || (!TooOld(p, env.config.ttlSeconds, now, i) && !Orphaned(p, env.config.ttlSeconds, now, i)))
  {
    hide BeyondFront, Orphaned, DistinctHashes, UniquePairs;
    if env.config.ttlSeconds == 0 {
      hide Left, Without;
      ps := LeftOf(p, {});
    } else {
      ps := Removals.ExpiryExact(env, p, now);
      forall i | 0 <= i < |p.ops|
        ensures BeyondFront(p.ops, Expired(p, Cutoff(env.config, now)), p.ops[i].payload) <==> Orphaned(p, env.config.ttlSeconds, now, i)
      {
        BeyondMeans(p, env.config, now, i);
      }
    }
  }
}
