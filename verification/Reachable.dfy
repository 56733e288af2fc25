/** Runs from the empty pool on which the mempool does less than its own words promise; each is one failing input. */
module Reachable {
  import opened Bytes
  import opened Hashing
  import opened Operations
  import opened PayloadCodec
  import opened Blocks
  import opened Admission
  import opened AdmissionRules
  import opened PoolIndex
  import opened Pool

  function Start(): State { State([], [], None) }

  // ---- Runs step by step ----

  lemma RunThen(env: Env, p: State, es: seq<Event>, e: Event)
    ensures Run(env, p, es + [e]) == Next(env, Run(env, p, es), e)
  {
    hide Next;
    assert (es + [e])[..|es|] == es;
  }

  lemma RunNone(env: Env, p: State)
    ensures Run(env, p, []) == p
  {
  }

  lemma Admits(env: Env, p: State, op: Operation, lookup: Lookup, now: u64)
    requires Admissible(env, p, op, lookup).Success?
    ensures Next(env, p, Admit(op, lookup, now)) == State(p.ops + [op], p.times + [now], p.admin)
  {
    hide Admissible;
  }

  // ---- Admission of small operations ----

  /** A transfer of nothing that everybody concerned has signed and can pay the fee of. */
  predicate Payable(env: Env, op: Operation, lookup: Lookup) {
    && op.payload.Transaction? && op.payload.receivers == [] && op.chainId == env.config.chainId && op.signatures != []
    && op.payload.fee >= env.config.minFee
    && SlotsSigned(env.verify, lookup, op.payload.senders, op.signatures, PutStripped(op, []))
    && forall s | s in op.payload.senders ::
         s.amount == 0 && SenderFit(lookup, s, op.payload.fee)
  }

  /** Such transfers exist: rich accounts in good standing and signatures that verify are enough. */
  lemma PayableExists(env: Env, lookup: Lookup, fee: u64, ss: seq<Sender>, sigs: seq<Sig>)
    requires fee >= env.config.minFee && 0 < |ss| <= |sigs| && forall s | s in ss :: s.amount == 0
    requires forall sig, k, m :: env.verify(sig, k, m)
    requires forall a: u64 :: OnRecord(lookup, a) && Of(lookup, a).state == Normal && Of(lookup, a).balance >= fee
    ensures Payable(env, Pay(env.config.chainId, fee, ss, sigs), lookup)
  {
    hide PutStripped;
    forall i | 0 <= i < |ss|
      ensures SlotSigned(env.verify, lookup, ss[i].account, sigs[i], PutStripped(Pay(env.config.chainId, fee, ss, sigs), []))
    {
      assert OnRecord(lookup, ss[i].account);
    }
    forall s | s in ss
      ensures SenderFit(lookup, s, fee)
    {
      assert OnRecord(lookup, s.account) && Of(lookup, s.account).state == Normal;
    }
  }

  lemma {:induction false} ZeroSent(ss: seq<Sender>)
    requires forall s | s in ss :: s.amount == 0
    ensures SenderSum(ss) == 0
  {
    if ss != [] {
      assert ss == [ss[0]] + ss[1..];
      ZeroSent(ss[1..]);
    }
  }

  lemma PayableAdmits(env: Env, p: State, op: Operation, lookup: Lookup)
    requires Payable(env, op, lookup) && |p.ops| < env.config.maxOperations
    requires !HashTaken(env.H, p.ops, OpHash(env.H, op))
    requires forall k | k in Pairs(op) :: !Tracked(p.ops, k)
    requires forall k | k in NoncePairs(op.payload) :: CheckNonce(Nonces(p.ops), lookup, k).Success?
    ensures Admissible(env, p, op, lookup).Success?
  {
    hide Admissible, ValidateBalanceAndFee, HashTaken, OpHash, Tracked, Nonces, CheckNonce, Pairs, NoncePairs, SlotsSigned, SenderFit,
         PutStripped, SenderSum;
    AdmissibleParts(env, p, op, lookup);
    var q := op.payload;
    TransferExact(env.config, q, lookup);
    ZeroSent(q.senders);
  }

  function From(a: u64, n: u64): Sender { Sender(a, n, 0, []) }

  function Pay(chain: u64, fee: u64, ss: seq<Sender>, sigs: seq<Sig>): Operation {
    Operation(0x01, Transaction(ss, [], [], fee), chain, sigs)
  }

  lemma PayOk(op: Operation, ss: seq<Sender>)
    requires op.opType == 0x01 && op.payload.Transaction? && op.payload.senders == ss && op.payload.receivers == [] && op.payload.changers == [] && |op.signatures| <= 2 && |ss| <= 2
    requires forall s | s in ss :: s.payload == []
    ensures OperationOk(op)
  {
  }

  lemma OnePair(op: Operation, a: u64, n: u64)
    requires op.payload.Transaction? && op.payload.senders == [From(a, n)]
    ensures NoncePairs(op.payload) == [(a, n)] && Pairs(op) == {(a, n)}
  {
    assert From(a, n) in Senders(op.payload);
  }

  lemma TwoPairs(op: Operation, a: u64, m: u64, b: u64, n: u64)
    requires op.payload.Transaction? && op.payload.senders == [From(a, m), From(b, n)]
    ensures NoncePairs(op.payload) == [(a, m), (b, n)] && Pairs(op) == {(a, m), (b, n)}
  {
    assert From(a, m) in Senders(op.payload) && From(b, n) in Senders(op.payload);
  }

  /** The nonce index, read off the nonces that are tracked. */
  lemma NonceIs(ops: seq<Operation>, a: u64, n: u64)
    requires Tracked(ops, (a, n)) && forall m: u64 | Tracked(ops, (a, m)) :: m <= n
    ensures a in Nonces(ops) && Nonces(ops)[a] == n
  {
    hide Tracked, Nonces;
    NoncesExact(ops);
  }

  lemma NonceAbsent(ops: seq<Operation>, a: u64)
    requires forall m: u64 :: !Tracked(ops, (a, m))
    ensures a !in Nonces(ops)
  {
    hide Tracked, Nonces;
    NoncesExact(ops);
  }

  lemma OneTracked(op: Operation, k: Pair)
    ensures Tracked([op], k) <==> k in Pairs(op)
  {
    hide Pairs;
    assert k in Pairs(op) ==> HeldAt([op], 0, k);
  }

  lemma TwoTracked(a: Operation, b: Operation, k: Pair)
    ensures Tracked([a, b], k) <==> k in Pairs(a) || k in Pairs(b)
  {
    hide Pairs;
    assert k in Pairs(a) ==> HeldAt([a, b], 0, k);
    assert k in Pairs(b) ==> HeldAt([a, b], 1, k);
  }

  lemma KeptOnly(n: nat, drop: set<nat>)
    requires n > 0 && n - 1 !in drop && forall i | 0 <= i < n - 1 :: i in drop
    ensures Kept(n, drop) == [n - 1]
  {
    KeptExact(n - 1, drop);
    assert |Kept(n - 1, drop)| > 0 ==> Kept(n - 1, drop)[0] < n - 1;
  }

  // ---- The expiry cascade is one pass ----

  predicate Payments(a: Operation, b: Operation, c: Operation) {
    && a.payload.Transaction? && a.payload.senders == [From(1, 0)]
    && b.payload.Transaction? && b.payload.senders == [From(1, 1), From(2, 0)]
    && c.payload.Transaction? && c.payload.senders == [From(2, 1)]
  }

  lemma PaymentPairs(a: Operation, b: Operation, c: Operation)
    requires Payments(a, b, c)
    ensures NoncePairs(a.payload) == [(1, 0)] && NoncePairs(b.payload) == [(1, 1), (2, 0)] && NoncePairs(c.payload) == [(2, 1)]
    ensures Pairs(a) == {(1, 0)} && Pairs(b) == {(1, 1), (2, 0)} && Pairs(c) == {(2, 1)}
  {
    hide NoncePairs, Pairs;
    OnePair(a, 1, 0);
    TwoPairs(b, 1, 1, 2, 0);
    OnePair(c, 2, 1);
  }

  lemma FirstPayment(env: Env, a: Operation, b: Operation, c: Operation, lookup: Lookup, k: Pair)
    requires Payments(a, b, c) && k == (1, 0) && lookup(1).Success? && OnChain(lookup, 1) == 0
    ensures CheckNonce(Nonces([]), lookup, k).Success? && !Tracked([], k)
  {
  }

  lemma SecondPayment(a: Operation, b: Operation, c: Operation, lookup: Lookup, k: Pair)
    requires Payments(a, b, c) && k in Pairs(b) && lookup(k.0).Success? && OnChain(lookup, k.0) == 0
    ensures CheckNonce(Nonces([a]), lookup, k).Success? && !Tracked([a], k)
  {
    hide Tracked, Nonces, Pairs, NoncePairs, OnChain;
    PaymentPairs(a, b, c);
    OneTracked(a, k);
    OneTracked(a, (1, 0));
    forall m: u64 ensures Tracked([a], (k.0, m)) <==> k.0 == 1 && m == 0 {
      OneTracked(a, (k.0, m));
    }
    if k.0 == 1 {
      NonceIs([a], 1, 0);
    } else {
      NonceAbsent([a], 2);
    }
  }

  lemma ThirdPayment(a: Operation, b: Operation, c: Operation, lookup: Lookup)
    requires Payments(a, b, c) && lookup(2).Success? && OnChain(lookup, 2) == 0
    ensures CheckNonce(Nonces([a, b]), lookup, (2, 1)).Success? && !Tracked([a, b], (2, 1))
  {
    hide Tracked, Nonces, Pairs, NoncePairs, OnChain;
    PaymentPairs(a, b, c);
    forall m: u64 ensures Tracked([a, b], (2, m)) <==> m == 0 {
      TwoTracked(a, b, (2, m));
    }
    NonceIs([a, b], 2, 0);
  }

  lemma OneOrphan(p: State, a: Operation, b: Operation, c: Operation)
    requires p.ops == [a, b, c] && Payments(a, b, c)
    ensures Orphans(p, {0}) == {1}
  {
    hide NoncePairs;
    PaymentPairs(a, b, c);
    assert (1, 1) in NoncePairs(b.payload) && (1, 0) in NoncePairs(a.payload);
    assert Above(b.payload, a.payload) && !Above(c.payload, a.payload);
    assert OrphanedBy(p.ops, 1, {0}) && !OrphanedBy(p.ops, 2, {0});
  }

  lemma LeftAlone(a: Operation, b: Operation, c: Operation, lookup: Lookup)
    requires Payments(a, b, c) && OnChain(lookup, 2) == 0
    ensures !GapFree([c], lookup)
  {
    hide Pairs, NoncePairs, Tracked;
    PaymentPairs(a, b, c);
    OneTracked(c, (2, 1));
    OneTracked(c, (2, 0));
  }

  /** What expiry makes of the three payments when only the first is too old. */
  lemma OneLeft(env: Env, a: Operation, b: Operation, c: Operation, t: u64)
    requires Payments(a, b, c) && 0 < env.config.ttlSeconds && t == env.config.ttlSeconds + 1
    ensures Next(env, State([a, b, c], [0, t, t], None), EvictExpired(t)).ops == [c]
  {
    hide Orphans, Payments;
    var p := State([a, b, c], [0, t, t], None);
    assert Expired(p, 1) == {0};
    OneOrphan(p, a, b, c);
    assert {0} + Orphans(p, {0}) == {0, 1};
    KeptOnly(3, {0, 1});
  }

  lemma AdmitThree(env: Env, a: Operation, b: Operation, c: Operation, lookup: Lookup, t: u64)
    requires Payments(a, b, c) && env.config.maxOperations >= 3
    requires Payable(env, a, lookup) && Payable(env, b, lookup) && Payable(env, c, lookup)
    requires lookup(1).Success? && lookup(2).Success? && OnChain(lookup, 1) == 0 && OnChain(lookup, 2) == 0
    requires OpHash(env.H, a) != OpHash(env.H, b) && OpHash(env.H, a) != OpHash(env.H, c) && OpHash(env.H, b) != OpHash(env.H, c)
    ensures Run(env, Start(), [Admit(a, lookup, 0), Admit(b, lookup, t), Admit(c, lookup, t)]) == State([a, b, c], [0, t, t], None)
    ensures GapFree([a, b, c], lookup)
  {
    hide Next, Admissible, Payments, Payable, OpHash, Pairs, NoncePairs, Tracked, Nonces, CheckNonce, OnChain, GapFree, Run;
    PaymentPairs(a, b, c);
    var e1, e2, e3 := Admit(a, lookup, 0), Admit(b, lookup, t), Admit(c, lookup, t);
    var p1, p2 := State([a], [0], None), State([a, b], [0, t], None);
    FirstPayment(env, a, b, c, lookup, (1, 0));
    PayableAdmits(env, Start(), a, lookup);
    Admits(env, Start(), a, lookup, 0);
    forall k | k in Pairs(b) ensures CheckNonce(Nonces(p1.ops), lookup, k).Success? && !Tracked(p1.ops, k) {
      SecondPayment(a, b, c, lookup, k);
    }
    PayableAdmits(env, p1, b, lookup);
    Admits(env, p1, b, lookup, t);
    ThirdPayment(a, b, c, lookup);
    PayableAdmits(env, p2, c, lookup);
    Admits(env, p2, c, lookup, t);
    RunNone(env, Start());
    RunThen(env, Start(), [], e1);
    RunThen(env, Start(), [e1], e2);
    RunThen(env, Start(), [e1, e2], e3);
    assert [] + [0] == [0] && [0] + [t] == [0, t] && [0, t] + [t] == [0, t, t];
    assert [] + [e1] == [e1] && [e1] + [e2] == [e1, e2] && [e1, e2] + [e3] == [e1, e2, e3];
    assert [] + [a] == [a] && [a] + [b] == [a, b] && [a, b] + [c] == [a, b, c];
    assert GapFree([], lookup) by { EmptyGapFree(lookup); }
    AdmitGapFree(env, Start(), a, lookup);
    AdmitGapFree(env, p1, b, lookup);
    AdmitGapFree(env, p2, c, lookup);
  }

  lemma EmptyGapFree(lookup: Lookup)
    ensures GapFree([], lookup)
  {
  }

  lemma ThreeHashes(H: Digest, a: Operation, b: Operation, c: Operation) returns (x: Bytes, y: Bytes)
    requires OperationOk(a) && OperationOk(b) && OperationOk(c) && a != b && a != c && b != c
    ensures Collision(H, x, y)
            || (OpHash(H, a) != OpHash(H, b) && OpHash(H, a) != OpHash(H, c) && OpHash(H, b) != OpHash(H, c))
  {
    hide OperationOk, Encode;
    x, y := [], [];
    if OpHash(H, a) == OpHash(H, b) {
      OpHashBinds(H, a, b);
      x, y := Encode(a), Encode(b);
    } else if OpHash(H, a) == OpHash(H, c) {
      OpHashBinds(H, a, c);
      x, y := Encode(a), Encode(c);
    } else if OpHash(H, b) == OpHash(H, c) {
      OpHashBinds(H, b, c);
      x, y := Encode(b), Encode(c);
    }
  }

  /**
   * Three signed payments, admitted in turn to the empty pool as unbroken chains; when the first expires, the cascade takes
   * the second, which also held account 2's nonce 0, and leaves account 2's nonce 1 behind. Or two encodings collide.
   */
  lemma CascadeStops(env: Env, lookup: Lookup, fee: u64, s1: Sig, s2: Sig, s3: Sig, s4: Sig) returns (x: Bytes, y: Bytes)
    requires env.config.maxOperations >= 3 && 0 < env.config.ttlSeconds < U64_LAST
    requires lookup(1).Success? && lookup(2).Success? && OnChain(lookup, 1) == 0 && OnChain(lookup, 2) == 0
    requires Payable(env, Pay(env.config.chainId, fee, [From(1, 0)], [s1]), lookup)
    requires Payable(env, Pay(env.config.chainId, fee, [From(1, 1), From(2, 0)], [s2, s3]), lookup)
    requires Payable(env, Pay(env.config.chainId, fee, [From(2, 1)], [s4]), lookup)
    ensures var a := Pay(env.config.chainId, fee, [From(1, 0)], [s1]);
            var b := Pay(env.config.chainId, fee, [From(1, 1), From(2, 0)], [s2, s3]);
            var c := Pay(env.config.chainId, fee, [From(2, 1)], [s4]);
            var t := env.config.ttlSeconds + 1;
            var admissions := [Admit(a, lookup, 0), Admit(b, lookup, t), Admit(c, lookup, t)];
            || Collision(env.H, x, y)
            || (&& GapFree(Run(env, Start(), admissions).ops, lookup)
                && Run(env, Start(), admissions + [EvictExpired(t)]).ops == [c]
                && !GapFree(Run(env, Start(), admissions + [EvictExpired(t)]).ops, lookup))
  {
    hide Payable, OperationOk, OpHash, GapFree, Next, Run;
    var a := Pay(env.config.chainId, fee, [From(1, 0)], [s1]);
    var b := Pay(env.config.chainId, fee, [From(1, 1), From(2, 0)], [s2, s3]);
    var c := Pay(env.config.chainId, fee, [From(2, 1)], [s4]);
    var t := env.config.ttlSeconds + 1;
    PayOk(a, [From(1, 0)]);
    PayOk(b, [From(1, 1), From(2, 0)]);
    PayOk(c, [From(2, 1)]);
    assert a.payload.senders[0] != c.payload.senders[0] && |b.payload.senders| == 2;
    x, y := ThreeHashes(env.H, a, b, c);
    if !Collision(env.H, x, y) {
      AdmitThree(env, a, b, c, lookup, t);
      var admissions := [Admit(a, lookup, 0), Admit(b, lookup, t), Admit(c, lookup, t)];
      RunThen(env, Start(), admissions, EvictExpired(t));
      OneLeft(env, a, b, c, t);
      LeftAlone(a, b, c, lookup);
    }
  }

  // ---- Equality overlooks public keys ----

  function Gift(chain: u64, fee: u64, address: AddressHash, key: Option<Key>, sig: Sig): Operation {
    Operation(0x0F, AddressTransaction([], [AddressReceiver(address, key, 0, [])], fee), chain, [sig])
  }

  lemma Twins(chain: u64, fee: u64, address: AddressHash, k: Key, s1: Sig, s2: Sig)
    requires s1 == s2
    ensures Same(Gift(chain, fee, address, Some(k), s1), Gift(chain, fee, address, None, s2))
    ensures Gift(chain, fee, address, Some(k), s1) != Gift(chain, fee, address, None, s2)
  {
    var a, b := Gift(chain, fee, address, Some(k), s1), Gift(chain, fee, address, None, s2);
    assert Blank(a).payload.addressReceivers == b.payload.addressReceivers == Blank(b).payload.addressReceivers;
  }

  lemma GiftParts(chain: u64, fee: u64, address: AddressHash, key: Option<Key>, sig: Sig)
    ensures var g := Gift(chain, fee, address, key, sig);
            OperationOk(g) && Senders(g.payload) == [] && NoncePairs(g.payload) == [] && Pairs(g) == {}
  {
  }

  lemma GiftAdmits(env: Env, p: State, lookup: Lookup, fee: u64, address: AddressHash, key: Option<Key>, sig: Sig)
    requires |p.ops| < env.config.maxOperations && fee >= env.config.minFee
    requires !HashTaken(env.H, p.ops, OpHash(env.H, Gift(env.config.chainId, fee, address, key, sig)))
    ensures Admissible(env, p, Gift(env.config.chainId, fee, address, key, sig), lookup).Success?
  {
    hide Admissible, ValidateBalanceAndFee, HashTaken, OpHash, Tracked, Nonces, CheckNonce, PutStripped;
    var g := Gift(env.config.chainId, fee, address, key, sig);
    GiftParts(env.config.chainId, fee, address, key, sig);
    AdmissibleParts(env, p, g, lookup);
    UncheckedExact(env.config, g.payload, lookup);
    var rs := g.payload.addressReceivers;
    assert rs[1..] == [] && AddressSum(rs[1..]) == 0 && AddressSum(rs) == 0;
  }

  lemma FirstTwinGoes(p: State, a: Operation, b: Operation)
    requires p.ops == [a, b] && |p.times| == 2 && Same(a, b) && Senders(b.payload) == []
    ensures Without(p, CommittedDrop(p, [b])).ops == [b]
  {
    hide Same;
    assert FirstSame(p.ops, b) == 0;
    assert Confirms(p.ops, b, 0) && !Confirms(p.ops, b, 1);
    assert CommittedDrop(p, [b]) == {0};
    KeptOnly(2, {0});
  }

  /**
   * Two transfers that differ only in a receiver's public key, paying any fee that is enough, are both admitted; committing
   * the second takes the first out of the pool and leaves the committed one pending. Or two encodings collide.
   */
  lemma TwinSurvives(env: Env, lookup: Lookup, now: u64, fee: u64, address: AddressHash, k: Key, sig: Sig) returns (x: Bytes, y: Bytes)
    requires env.config.maxOperations >= 2 && fee >= env.config.minFee
    ensures var a := Gift(env.config.chainId, fee, address, Some(k), sig);
            var b := Gift(env.config.chainId, fee, address, None, sig);
            || Collision(env.H, x, y)
            || (&& Run(env, Start(), [Admit(a, lookup, now), Admit(b, lookup, now)]).ops == [a, b]
                && Run(env, Start(), [Admit(a, lookup, now), Admit(b, lookup, now), RemoveCommitted([b])]).ops == [b])
  {
    hide Same, Gift, OpHash, Admissible, Run, Keep, OperationOk, CommittedDrop;
    var a := Gift(env.config.chainId, fee, address, Some(k), sig);
    var b := Gift(env.config.chainId, fee, address, None, sig);
    GiftParts(env.config.chainId, fee, address, Some(k), sig);
    GiftParts(env.config.chainId, fee, address, None, sig);
    Twins(env.config.chainId, fee, address, k, sig, sig);
    x, y := Encode(a), Encode(b);
    if OpHash(env.H, a) == OpHash(env.H, b) {
      OpHashBinds(env.H, a, b);
    } else {
      GiftAdmits(env, Start(), lookup, fee, address, Some(k), sig);
      Admits(env, Start(), a, lookup, now);
      var p := State([a], [now], None);
      GiftAdmits(env, p, lookup, fee, address, None, sig);
      Admits(env, p, b, lookup, now);
      TwoRun(env, Start(), Admit(a, lookup, now), Admit(b, lookup, now));
      assert [] + [a] == [a] && [a] + [b] == [a, b] && [] + [now] == [now];
      var es := [Admit(a, lookup, now), Admit(b, lookup, now)];
      RunThen(env, Start(), es, RemoveCommitted([b]));
      assert es + [RemoveCommitted([b])] == [Admit(a, lookup, now), Admit(b, lookup, now), RemoveCommitted([b])];
      FirstTwinGoes(Run(env, Start(), es), a, b);
    }
  }

  lemma TwoRun(env: Env, p: State, e: Event, f: Event)
    ensures Run(env, p, [e]) == Next(env, p, e) && Run(env, p, [e, f]) == Next(env, Next(env, p, e), f)
  {
    hide Next, Run;
    RunNone(env, p);
    RunThen(env, p, [], e);
    RunThen(env, p, [e], f);
    assert [] + [e] == [e] && [e] + [f] == [e, f];
  }

  // ---- The last nonce ----

  lemma BehindLast(a: Operation, b: Operation, lookup: Lookup, n: u64)
    requires n == U64_LAST - 1 && Pairs(a) == {(1, n)} && Pairs(b) == {(1, U64_LAST)} && lookup(1).Success? && OnChain(lookup, 1) == n
    ensures CheckNonce(Nonces([]), lookup, (1, n)).Success? && !Tracked([], (1, n))
    ensures CheckNonce(Nonces([a]), lookup, (1, U64_LAST)).Success? && !Tracked([a], (1, U64_LAST))
    ensures CheckNonce(Nonces([b]), lookup, (1, n)).Success? && !Tracked([b], (1, n))
  {
    hide Tracked, Nonces, Pairs, OnChain;
    assert forall k :: !Tracked([], k) by { NothingTracked(); }
    NonceAbsent([], 1);
    forall m: u64 ensures (Tracked([a], (1, m)) <==> m == n) && (Tracked([b], (1, m)) <==> m == U64_LAST) {
      OneTracked(a, (1, m));
      OneTracked(b, (1, m));
    }
    NonceIs([a], 1, n);
    NonceIs([b], 1, U64_LAST);
  }

  lemma OutOfOrder(a: Operation, b: Operation, n: u64)
    requires n < U64_LAST && Pairs(a) == {(1, n)} && Pairs(b) == {(1, U64_LAST)}
    ensures !Ordered([b, a])
  {
    assert HeldAt([b, a], 0, (1, U64_LAST)) && HeldAt([b, a], 1, (1, n));
  }

  lemma FirstRemoved(env: Env, a: Operation, b: Operation, n: u64, now: u64)
    requires n < U64_LAST && Pairs(a) == {(1, n)} && Pairs(b) == {(1, U64_LAST)}
    ensures Next(env, State([a, b], [now, now], None), Event.Remove(1, n)) == State([b], [now], None)
  {
    hide Pairs;
    var p := State([a, b], [now, now], None);
    assert HeldAt(p.ops, 0, (1, n)) && !HeldAt(p.ops, 1, (1, n));
    assert NonceDrop(p, (1, n)) == {0};
    KeptOnly(2, {0});
  }

  /**
   * The chain stands at the last nonce but one. Payments with it and with the last nonce are admitted; once the first is
   * removed, the nonce expected behind the last one wraps to zero and so falls back to the chain's, and the first payment is
   * admitted again, behind the larger nonce. Or two encodings collide.
   */
  lemma NonceWraps(env: Env, lookup: Lookup, now: u64, fee: u64, s1: Sig, s2: Sig) returns (x: Bytes, y: Bytes)
    requires env.config.maxOperations >= 2 && lookup(1).Success? && OnChain(lookup, 1) == U64_LAST - 1
    requires Payable(env, Pay(env.config.chainId, fee, [From(1, U64_LAST - 1)], [s1]), lookup)
    requires Payable(env, Pay(env.config.chainId, fee, [From(1, U64_LAST)], [s2]), lookup)
    ensures var a := Pay(env.config.chainId, fee, [From(1, U64_LAST - 1)], [s1]);
            var b := Pay(env.config.chainId, fee, [From(1, U64_LAST)], [s2]);
            var es := [Admit(a, lookup, now), Admit(b, lookup, now), Event.Remove(1, U64_LAST - 1), Admit(a, lookup, now)];
            Collision(env.H, x, y) || (Run(env, Start(), es).ops == [b, a] && !Ordered(Run(env, Start(), es).ops))
  {
    hide Payable, OperationOk, OpHash, Admissible, Run, Next, Pairs, NoncePairs, Tracked, Nonces, CheckNonce, OnChain, Ordered, Encode;
    var n: u64 := U64_LAST - 1;
    var a := Pay(env.config.chainId, fee, [From(1, n)], [s1]);
    var b := Pay(env.config.chainId, fee, [From(1, U64_LAST)], [s2]);
    PayOk(a, [From(1, n)]);
    PayOk(b, [From(1, U64_LAST)]);
    OnePair(a, 1, n);
    OnePair(b, 1, U64_LAST);
    assert a.payload.senders[0] != b.payload.senders[0];
    x, y := Encode(a), Encode(b);
    if OpHash(env.H, a) == OpHash(env.H, b) {
      OpHashBinds(env.H, a, b);
    } else {
      BehindLast(a, b, lookup, n);
      var p1, p2, p3 := State([a], [now], None), State([a, b], [now, now], None), State([b], [now], None);
      PayableAdmits(env, Start(), a, lookup);
      Admits(env, Start(), a, lookup, now);
      PayableAdmits(env, p1, b, lookup);
      Admits(env, p1, b, lookup, now);
      FirstRemoved(env, a, b, n, now);
      PayableAdmits(env, p3, a, lookup);
      Admits(env, p3, a, lookup, now);
      var e1, e2, e3 := Admit(a, lookup, now), Admit(b, lookup, now), Event.Remove(1, n);
      assert [] + [a] == [a] && [a] + [b] == [a, b] && [b] + [a] == [b, a] && [] + [now] == [now] && [now] + [now] == [now, now];
      TwoRun(env, Start(), e1, e2);
      RunThen(env, Start(), [e1, e2], e3);
      RunThen(env, Start(), [e1, e2, e3], e1);
      assert [e1, e2] + [e3] == [e1, e2, e3] && [e1, e2, e3] + [e1] == [e1, e2, e3, e1];
      OutOfOrder(a, b, n);
    }
  }

  // ---- Nonces nobody tracks ----

  function Rekey(chain: u64, n: u64, fee: u64, key: Key, sig: Sig): Operation {
    Operation(0x02, ChangeKey(1, n, fee, key), chain, [sig])
  }

  lemma RekeyParts(chain: u64, n: u64, fee: u64, key: Key, sig: Sig)
    ensures var op := Rekey(chain, n, fee, key, sig);
            OperationOk(op) && NoncePairs(op.payload) == [(1, n)] && Pairs(op) == {}
  {
  }

  lemma RekeyAdmits(env: Env, p: State, lookup: Lookup, n: u64, fee: u64, key: Key, sig: Sig)
    requires |p.ops| < env.config.maxOperations && fee >= env.config.minFee
    requires forall k :: !Tracked(p.ops, k)
    requires lookup(1).Success? && OnChain(lookup, 1) == n
    requires var op := Rekey(env.config.chainId, n, fee, key, sig);
             SlotSigned(env.verify, lookup, 1, sig, PutStripped(op, [])) && !HashTaken(env.H, p.ops, OpHash(env.H, op))
    ensures Admissible(env, p, Rekey(env.config.chainId, n, fee, key, sig), lookup).Success?
  {
    hide Admissible, HashTaken, OpHash, Tracked, Nonces, PutStripped, SlotSigned, OnChain;
    var op := Rekey(env.config.chainId, n, fee, key, sig);
    RekeyParts(env.config.chainId, n, fee, key, sig);
    NonceAbsent(p.ops, 1);
    AdmissibleParts(env, p, op, lookup);
    ConservationExact([], []);
  }

  /** Two key changes of one account with one nonce are both admitted. Or two encodings collide. */
  lemma SameNonceTwice(env: Env, lookup: Lookup, now: u64, n: u64, fee: u64, k1: Key, k2: Key, s1: Sig, s2: Sig) returns (x: Bytes, y: Bytes)
    requires env.config.maxOperations >= 2 && fee >= env.config.minFee && k1 != k2
    requires lookup(1).Success? && OnChain(lookup, 1) == n
    requires SlotSigned(env.verify, lookup, 1, s1, PutStripped(Rekey(env.config.chainId, n, fee, k1, s1), []))
    requires SlotSigned(env.verify, lookup, 1, s2, PutStripped(Rekey(env.config.chainId, n, fee, k2, s2), []))
    ensures var a, b := Rekey(env.config.chainId, n, fee, k1, s1), Rekey(env.config.chainId, n, fee, k2, s2);
            var ops := Run(env, Start(), [Admit(a, lookup, now), Admit(b, lookup, now)]).ops;
            Collision(env.H, x, y) || (ops == [a, b] && UsedAt(ops, 0, (1, n)) && UsedAt(ops, 1, (1, n)))
  {
    hide OperationOk, OpHash, Admissible, Run, Next, Tracked, OnChain, Encode, SlotSigned, PutStripped;
    var a, b := Rekey(env.config.chainId, n, fee, k1, s1), Rekey(env.config.chainId, n, fee, k2, s2);
    RekeyParts(env.config.chainId, n, fee, k1, s1);
    RekeyParts(env.config.chainId, n, fee, k2, s2);
    x, y := Encode(a), Encode(b);
    if OpHash(env.H, a) == OpHash(env.H, b) {
      OpHashBinds(env.H, a, b);
    } else {
      NothingTracked();
      RekeyAdmits(env, Start(), lookup, n, fee, k1, s1);
      Admits(env, Start(), a, lookup, now);
      var p := State([a], [now], None);
      forall k ensures !Tracked(p.ops, k) {
        OneTracked(a, k);
      }
      RekeyAdmits(env, p, lookup, n, fee, k2, s2);
      Admits(env, p, b, lookup, now);
      TwoRun(env, Start(), Admit(a, lookup, now), Admit(b, lookup, now));
      assert [] + [a] == [a] && [a] + [b] == [a, b] && [] + [now] == [now];
    }
  }
}
