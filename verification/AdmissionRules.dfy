/** What admission demands, payload by payload, in terms of the chain; the checks are proved against it. */
module AdmissionRules {
  import opened Bytes
  import opened Operations
  import opened PayloadCodec
  import opened Admission

  predicate OnRecord(lookup: Lookup, a: u64) { lookup(a).Success? && lookup(a).value.Some? }

  function Of(lookup: Lookup, a: u64): Account
    requires OnRecord(lookup, a)
  {
    lookup(a).value.value
  }

  // ---- Value and fee ----

  function SenderSum(ss: seq<Sender>): nat { if ss == [] then 0 else ss[0].amount + SenderSum(ss[1..]) }
  function ReceiverSum(rs: seq<Receiver>): nat { if rs == [] then 0 else rs[0].amount + ReceiverSum(rs[1..]) }
  function AddressSum(rs: seq<AddressReceiver>): nat { if rs == [] then 0 else rs[0].amount + AddressSum(rs[1..]) }

  predicate Barred(s: AccountState) { s == Reserved || s == GiftPending }

  /** A sum that does not fit 64 bits counts as the last 64-bit value. */
  predicate CanPay(balance: u64, amount: nat, fee: nat) { balance >= amount + fee || balance == 0xFFFF_FFFF_FFFF_FFFF }

  predicate SenderFit(lookup: Lookup, s: Sender, fee: u64) {
    OnRecord(lookup, s.account) && !Barred(Of(lookup, s.account).state) && CanPay(Of(lookup, s.account).balance, s.amount, fee)
  }

  predicate ReceiverFit(lookup: Lookup, r: Receiver) {
    lookup(r.account).Success? && (lookup(r.account).value.Some? ==> !Barred(lookup(r.account).value.value.state))
  }

  predicate TransferRight(config: Config, ss: seq<Sender>, rs: seq<Receiver>, fee: u64, lookup: Lookup) {
    && SenderSum(ss) == ReceiverSum(rs) < 0x1_0000_0000_0000_0000 && fee >= config.minFee
    && (forall s | s in ss :: SenderFit(lookup, s, fee))
    && (forall r | r in rs :: ReceiverFit(lookup, r))
  }

  /** Value, account state and fee, for each of the sixteen payloads. */
  predicate ValueRight(config: Config, p: Payload, lookup: Lookup) {
    match p
    case Transaction(ss, rs, _, fee) => TransferRight(config, ss, rs, fee, lookup)
    case MultiOperation(ss, rs, _, fee) => TransferRight(config, ss, rs, fee, lookup)
    case AddressTransaction(ss, rs, fee) => SenderSum(ss) == AddressSum(rs) < 0x1_0000_0000_0000_0000 && fee >= config.minFee
    case Data(_, _, fee, _, ss, rs, _) => SenderSum(ss) == ReceiverSum(rs) < 0x1_0000_0000_0000_0000 && fee >= config.minFee
    case BuyAccount(buyer, _, _, amount, fee, _, _) =>
      fee >= config.minFee && OnRecord(lookup, buyer) && CanPay(Of(lookup, buyer).balance, amount, fee)
    case Contract(a, _, fee, _, _) =>
      && fee >= config.minFee && OnRecord(lookup, a) && !Barred(Of(lookup, a).state)
      && CanPay(Of(lookup, a).balance, fee, config.contractGasReserve)
    case CreateAccount(a, _, _) => OnRecord(lookup, a) && Of(lookup, a).state == Reserved
    case GiftAccount(a, _, _, fee) =>
      && OnRecord(lookup, a) && Of(lookup, a).state != GiftPending && Of(lookup, a).balance >= fee
      && (fee >= config.minFee || (fee == 0 && Of(lookup, a).state == Reserved))
    case AcceptGift(a, _, fee) =>
      && OnRecord(lookup, a) && Of(lookup, a).state == GiftPending && Of(lookup, a).balance >= fee
      && (fee >= config.minFee || fee == 0)
    case ValidatorAdmin(_) => true
    case RecoverFounds(_) => config.minFee == 0
    case ChangeKey(_, _, fee, _) => fee >= config.minFee
    case ChangeKeySigned(_, _, fee, _, _) => fee >= config.minFee
    case ListAccountForSale(_, _, _, _, _, _, fee) => fee >= config.minFee
    case DelistAccount(_, _, fee) => fee >= config.minFee
    case ChangeAccountInfo(_, _, fee, _, _, _, _, _) => fee >= config.minFee
  }

  lemma {:induction false} SentSum(ss: seq<Sender>, xs: seq<u64>)
    requires |xs| == |ss| && forall i | 0 <= i < |ss| :: xs[i] == ss[i].amount
    ensures Total(xs) == SenderSum(ss)
  {
    if ss != [] {
      SentSum(ss[1..], xs[1..]);
    }
  }

  lemma {:induction false} ReceivedSum(rs: seq<Receiver>, xs: seq<u64>)
    requires |xs| == |rs| && forall i | 0 <= i < |rs| :: xs[i] == rs[i].amount
    ensures Total(xs) == ReceiverSum(rs)
  {
    if rs != [] {
      ReceivedSum(rs[1..], xs[1..]);
    }
  }

  lemma {:induction false} AddressedSum(rs: seq<AddressReceiver>, xs: seq<u64>)
    requires |xs| == |rs| && forall i | 0 <= i < |rs| :: xs[i] == rs[i].amount
    ensures Total(xs) == AddressSum(rs)
  {
    if rs != [] {
      AddressedSum(rs[1..], xs[1..]);
    }
  }

  lemma SendersFit(lookup: Lookup, ss: seq<Sender>, fee: u64)
    ensures SendersUnblocked(lookup, ss).Success? && SendersFunded(lookup, ss, fee).Success? <==> forall s | s in ss :: SenderFit(lookup, s, fee)
  {
    hide SendersUnblocked, SendersFunded;
    UnblockedAll(lookup, ss);
    FundedAll(lookup, ss, fee);
    forall s | s in ss
      ensures MaySend(lookup, s.account) && Covers(lookup, s.account, Saturating(s.amount, fee)) <==> SenderFit(lookup, s, fee)
    {
    }
  }

  lemma ReceiversFit(lookup: Lookup, rs: seq<Receiver>)
    ensures ReceiversUnblocked(lookup, rs).Success? <==> forall r | r in rs :: ReceiverFit(lookup, r)
  {
    hide ReceiversUnblocked;
    ReceiversAll(lookup, rs);
    forall r | r in rs ensures MayReceive(lookup, r.account) <==> ReceiverFit(lookup, r) {
    }
  }

  lemma TransferExact(config: Config, p: Payload, lookup: Lookup)
    requires p.Transaction? || p.MultiOperation?
    ensures ValidateBalanceAndFee(config, p, lookup).Success? <==> TransferRight(config, p.senders, p.receivers, p.fee, lookup)
  {
    hide Total, AddAll, ValidateConservation, SendersFunded, SendersUnblocked, ReceiversUnblocked, SenderFit, ReceiverFit, SenderSum, ReceiverSum;
    ConservationExact(Sent(p), Received(p));
    SentSum(p.senders, Sent(p));
    ReceivedSum(p.receivers, Received(p));
    SendersFit(lookup, p.senders, p.fee);
    ReceiversFit(lookup, p.receivers);
  }

  lemma UncheckedExact(config: Config, p: Payload, lookup: Lookup)
    requires p.AddressTransaction? || p.Data?
    ensures ValidateBalanceAndFee(config, p, lookup).Success? <==> ValueRight(config, p, lookup)
  {
    hide Total, AddAll, ValidateConservation, SenderSum, ReceiverSum, AddressSum;
    ConservationExact(Sent(p), Received(p));
    SentSum(p.senders, Sent(p));
    if p.Data? {
      ReceivedSum(p.receivers, Received(p));
    } else {
      AddressedSum(p.addressReceivers, Received(p));
    }
  }

  /** Value, state and fee pass exactly when they are right, whatever the payload. */
  lemma ValueExact(config: Config, p: Payload, lookup: Lookup)
    ensures ValidateBalanceAndFee(config, p, lookup).Success? <==> ValueRight(config, p, lookup)
  {
    if p.Transaction? || p.MultiOperation? {
      TransferExact(config, p, lookup);
    } else if p.AddressTransaction? || p.Data? {
      UncheckedExact(config, p, lookup);
    } else {
      SingleExact(config, p, lookup);
    }
  }

  lemma SingleExact(config: Config, p: Payload, lookup: Lookup)
    requires !p.Transaction? && !p.MultiOperation? && !p.AddressTransaction? && !p.Data?
    ensures ValidateBalanceAndFee(config, p, lookup).Success? <==> ValueRight(config, p, lookup)
  {
    hide AddAll, ValidateConservation, TransferRight, SenderSum, ReceiverSum, AddressSum;
    assert Sent(p) == [] && Received(p) == [];
    ConservationExact([], []);
  }

  /** Nothing that moves value, by account, by address or inside a data operation, passes unbalanced or under the minimum fee. */
  lemma EveryTransferBalanced(config: Config, p: Payload, lookup: Lookup)
    requires ValidateBalanceAndFee(config, p, lookup).Success?
    ensures p.Transaction? || p.MultiOperation? || p.Data? ==> SenderSum(p.senders) == ReceiverSum(p.receivers) && p.fee >= config.minFee
    ensures p.AddressTransaction? ==> SenderSum(p.senders) == AddressSum(p.addressReceivers) && p.fee >= config.minFee
  {
    ValueExact(config, p, lookup);
  }

  // ---- Signatures ----

  predicate SignedBy(verify: Verify, lookup: Lookup, a: u64, sig: Sig, message: Bytes) {
    OnRecord(lookup, a) && verify(sig, Of(lookup, a).key, message)
  }

  /** Sender `i` signs in slot `i` behind the first `skip` slots. */
  predicate AllSigned(verify: Verify, lookup: Lookup, ss: seq<Sender>, sigs: seq<Sig>, skip: nat, message: Bytes) {
    skip + |ss| <= |sigs| && forall i | 0 <= i < |ss| :: SignedBy(verify, lookup, ss[i].account, sigs[skip + i], message)
  }

  predicate AdminSignature(verify: Verify, admin: Option<Key>, sigs: seq<Sig>, message: Bytes) {
    admin.Some? && exists i | 0 <= i < |sigs| :: verify(sigs[i], admin.value, message)
  }

  /** Whose key must accept which signature over the unsigned bytes, for each of the sixteen payloads. */
  predicate SignedRight(verify: Verify, admin: Option<Key>, op: Operation, lookup: Lookup) {
    var sigs, message := op.signatures, PutStripped(op, []);
    && sigs != []
    && match op.payload
       case Transaction(ss, _, _, _) => AllSigned(verify, lookup, ss, sigs, 0, message)
       case AddressTransaction(ss, _, _) => AllSigned(verify, lookup, ss, sigs, 0, message)
       case MultiOperation(ss, _, _, _) => AllSigned(verify, lookup, ss, sigs, 0, message)
       case Data(a, _, _, _, ss, _, _) => SignedBy(verify, lookup, a, sigs[0], message) && AllSigned(verify, lookup, ss, sigs, 1, message)
       case ValidatorAdmin(_) => AdminSignature(verify, admin, sigs, message)
       case CreateAccount(_, _, _) => AdminSignature(verify, admin, sigs, message)
       case RecoverFounds(_) => true
       case GiftAccount(_, _, _, _) => true
       case AcceptGift(_, _, _) => true
       case ChangeKey(a, _, _, _) => SignedBy(verify, lookup, a, sigs[0], message)
       case ChangeKeySigned(a, _, _, _, _) => SignedBy(verify, lookup, a, sigs[0], message)
       case ListAccountForSale(a, _, _, _, _, _, _) => SignedBy(verify, lookup, a, sigs[0], message)
       case DelistAccount(a, _, _) => SignedBy(verify, lookup, a, sigs[0], message)
       case BuyAccount(buyer, _, _, _, _, _, _) => SignedBy(verify, lookup, buyer, sigs[0], message)
       case ChangeAccountInfo(a, _, _, _, _, _, _, _) => SignedBy(verify, lookup, a, sigs[0], message)
       case Contract(a, _, _, _, _) => SignedBy(verify, lookup, a, sigs[0], message)
  }

  lemma SlotsAll(verify: Verify, lookup: Lookup, ss: seq<Sender>, sigs: seq<Sig>, skip: nat, message: Bytes)
    requires skip <= |sigs|
    ensures SlotsSigned(verify, lookup, ss, sigs[skip..], message) <==> AllSigned(verify, lookup, ss, sigs, skip, message)
  {
    var rest := sigs[skip..];
    if |ss| <= |rest| {
      forall i | 0 <= i < |ss|
        ensures SlotSigned(verify, lookup, ss[i].account, rest[i], message) <==> SignedBy(verify, lookup, ss[i].account, sigs[skip + i], message)
      {
      }
    }
  }

  lemma SignedExact(verify: Verify, admin: Option<Key>, op: Operation, lookup: Lookup)
    ensures ValidateSignatures(verify, admin, op, lookup).Success? <==> SignedRight(verify, admin, op, lookup)
  {
    hide ValidateSignatures, PutStripped, SlotsSigned, AllSigned;
    SignaturesExact(verify, admin, op, lookup);
    var sigs, message := op.signatures, PutStripped(op, []);
    if sigs != [] {
      assert sigs[0..] == sigs;
      SlotsAll(verify, lookup, Senders(op.payload), sigs, 0, message);
      SlotsAll(verify, lookup, Senders(op.payload), sigs, 1, message);
    }
  }

  // ---- Nonces ----

  /** Some sender of the payload carries this nonce. */
  predicate Carries(p: Payload, a: u64, n: u64) {
    match p
    case Transaction(ss, _, _, _) => exists s | s in ss :: s.account == a && s.nOperation == n
    case AddressTransaction(ss, _, _) => exists s | s in ss :: s.account == a && s.nOperation == n
    case MultiOperation(ss, _, _, _) => exists s | s in ss :: s.account == a && s.nOperation == n
    case Data(_, _, _, _, ss, _, _) => exists s | s in ss :: s.account == a && s.nOperation == n
    case _ => false
  }

  /** The payload uses up this nonce: through a sender, or as its own account's. Gifts use none. */
  predicate UsesUp(p: Payload, a: u64, n: u64) {
    match p
    case Data(b, m, _, _, _, _, _) => (b == a && m == n) || Carries(p, a, n)
    case ChangeKey(b, m, _, _) => b == a && m == n
    case ChangeKeySigned(b, m, _, _, _) => b == a && m == n
    case ListAccountForSale(b, m, _, _, _, _, _) => b == a && m == n
    case DelistAccount(b, m, _) => b == a && m == n
    case BuyAccount(buyer, m, _, _, _, _, _) => buyer == a && m == n
    case ChangeAccountInfo(b, m, _, _, _, _, _, _) => b == a && m == n
    case Contract(b, m, _, _, _) => b == a && m == n
    case _ => Carries(p, a, n)
  }

  lemma SenderCarries(ss: seq<Sender>, a: u64, n: u64)
    ensures (a, n) in SenderPairs(ss) <==> exists s | s in ss :: s.account == a && s.nOperation == n
  {
    if s :| s in ss && s.account == a && s.nOperation == n {
      var i :| 0 <= i < |ss| && ss[i] == s;
      assert SenderPairs(ss)[i] == (a, n);
    }
    if (a, n) in SenderPairs(ss) {
      var i :| 0 <= i < |ss| && SenderPairs(ss)[i] == (a, n);
      assert ss[i] in ss;
    }
  }

  /** The nonces that are checked are the nonces the payload uses up. */
  lemma UsedExact(p: Payload, a: u64, n: u64)
    ensures (a, n) in NoncePairs(p) <==> UsesUp(p, a, n)
    ensures (exists s | s in Senders(p) :: s.account == a && s.nOperation == n) <==> Carries(p, a, n)
  {
    hide SenderPairs;
    if p.Transaction? || p.AddressTransaction? || p.MultiOperation? || p.Data? {
      SenderCarries(p.senders, a, n);
    }
  }

  /** The account's nonce on chain; an account that does not exist yet starts at zero. */
  function ChainNonce(lookup: Lookup, a: u64): u64 {
    if OnRecord(lookup, a) then Of(lookup, a).nOperation else 0
  }

  /** The nonce due: one above the largest pending one, but never behind the chain; behind the last 64-bit value, the chain's. */
  predicate NonceDue(largest: map<u64, u64>, lookup: Lookup, a: u64, n: u64) {
    && lookup(a).Success?
    && var chain := ChainNonce(lookup, a);
       n == if a in largest && largest[a] < 0xFFFF_FFFF_FFFF_FFFF && largest[a] >= chain then largest[a] + 1 else chain
  }

  lemma DueExact(largest: map<u64, u64>, lookup: Lookup, a: u64, n: u64)
    ensures CheckNonce(largest, lookup, (a, n)).Success? <==> NonceDue(largest, lookup, a, n)
  {
  }
}
