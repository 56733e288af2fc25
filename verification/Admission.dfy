/** What the mempool checks before it admits an operation. */
module Admission {
  import opened Bytes
  import opened Operations
  import opened PayloadCodec

  const U64_END := 0x1_0000_0000_0000_0000
  const U64_LAST: u64 := 0xFFFF_FFFF_FFFF_FFFF

  datatype AccountState = Unknown | Normal | ForSale | ForAtomicAccountSwap | ForAtomicCoinSwap | Reserved | Owned | GiftPending
  datatype Account = Account(balance: u64, nOperation: u64, state: AccountState, key: Key)

  /** Read access to the accounts on chain: an account, no account, or a storage error. */
  type Lookup = u64 -> Result<Option<Account>, string>

  datatype MempoolError =
    | InvalidSignature
    | SenderNotFound(account: u64)
    | InvalidNOperation(sender: u64, expected: u64, actual: u64)
    | InsufficientBalance(account: u64, balance: u64, required: u64)
    | FeeTooLow(fee: u64, minimum: u64)
    | DuplicateOperation(sender: u64, nOperation: u64)
    | DuplicateOpHash
    | InvalidAccountState(account: u64)
    | Storage(message: string)
    | MempoolFull
    | WrongChainId(expected: u64, actual: u64)
    | AdminKeyNotConfigured
    | UnbalancedTransfer(sent: u64, received: u64)
    | TransferValueOverflow

  type Verdict = Result<(), MempoolError>

  datatype Config = Config(minFee: u64, maxOperations: nat, chainId: u64, ttlSeconds: u64, contractGasReserve: u64)

  // ---- Reading payloads ----

  function Senders(p: Payload): seq<Sender> {
    match p
    case Transaction(ss, _, _, _) => ss
    case AddressTransaction(ss, _, _) => ss
    case MultiOperation(ss, _, _, _) => ss
    case Data(_, _, _, _, ss, _, _) => ss
    case _ => []
  }

  function AccountOf(p: Payload): Option<u64> {
    match p
    case ChangeKey(a, _, _, _) => Some(a)
    case ChangeKeySigned(a, _, _, _, _) => Some(a)
    case ListAccountForSale(a, _, _, _, _, _, _) => Some(a)
    case DelistAccount(a, _, _) => Some(a)
    case BuyAccount(b, _, _, _, _, _, _) => Some(b)
    case ChangeAccountInfo(a, _, _, _, _, _, _, _) => Some(a)
    case Data(a, _, _, _, _, _, _) => Some(a)
    case Contract(a, _, _, _, _) => Some(a)
    case _ => None
  }

  function NonceOf(p: Payload): Option<u64> {
    match p
    case ChangeKey(_, n, _, _) => Some(n)
    case ChangeKeySigned(_, n, _, _, _) => Some(n)
    case ListAccountForSale(_, n, _, _, _, _, _) => Some(n)
    case DelistAccount(_, n, _) => Some(n)
    case BuyAccount(_, n, _, _, _, _, _) => Some(n)
    case ChangeAccountInfo(_, n, _, _, _, _, _, _) => Some(n)
    case Data(_, n, _, _, _, _, _) => Some(n)
    case GiftAccount(_, n, _, _) => Some(n)
    case AcceptGift(_, n, _) => Some(n)
    case Contract(_, n, _, _, _) => Some(n)
    case _ => None
  }

  /** An account and a nonce of it. */
  type Pair = (u64, u64)

  function SenderPairs(ss: seq<Sender>): (r: seq<Pair>)
    ensures |r| == |ss| && forall i | 0 <= i < |ss| :: r[i] == (ss[i].account, ss[i].nOperation)
  {
    seq(|ss|, i requires 0 <= i < |ss| => (ss[i].account, ss[i].nOperation))
  }

  /** Every nonce the operation uses up, tracked by the index or not. */
  function NoncePairs(p: Payload): seq<Pair> {
    match p
    case Transaction(ss, _, _, _) => SenderPairs(ss)
    case AddressTransaction(ss, _, _) => SenderPairs(ss)
    case MultiOperation(ss, _, _, _) => SenderPairs(ss)
    case Data(a, n, _, _, ss, _, _) => [(a, n)] + SenderPairs(ss)
    case _ => if AccountOf(p).Some? && NonceOf(p).Some? then [(AccountOf(p).value, NonceOf(p).value)] else []
  }

  function FeeOf(p: Payload): u64 {
    match p
    case RecoverFounds(_) => 0
    case ValidatorAdmin(_) => 0
    case CreateAccount(_, _, _) => 0
    case Transaction(_, _, _, fee) => fee
    case AddressTransaction(_, _, fee) => fee
    case MultiOperation(_, _, _, fee) => fee
    case ChangeKey(_, _, fee, _) => fee
    case ChangeKeySigned(_, _, fee, _, _) => fee
    case ListAccountForSale(_, _, _, _, _, _, fee) => fee
    case DelistAccount(_, _, fee) => fee
    case BuyAccount(_, _, _, _, fee, _, _) => fee
    case ChangeAccountInfo(_, _, fee, _, _, _, _, _) => fee
    case Data(_, _, fee, _, _, _, _) => fee
    case GiftAccount(_, _, _, fee) => fee
    case AcceptGift(_, _, fee) => fee
    case Contract(_, _, fee, _, _) => fee
  }

  function GetAccount(lookup: Lookup, a: u64): Result<Account, MempoolError> {
    match lookup(a)
    case Failure(e) => Failure(Storage(e))
    case Success(None) => Failure(SenderNotFound(a))
    case Success(Some(account)) => Success(account)
  }

  // ---- Signatures ----

  /** Sender `i` must have signed with its account's key in slot `i`. */
  function SendersSigned(verify: Verify, lookup: Lookup, ss: seq<Sender>, sigs: seq<Sig>, message: Bytes): Verdict
    decreases |ss|
  {
    if ss == [] then Success(()) else
    var account :- GetAccount(lookup, ss[0].account);
    if sigs == [] || !verify(sigs[0], account.key, message) then Failure(InvalidSignature)
    else SendersSigned(verify, lookup, ss[1..], sigs[1..], message)
  }

  function ValidateSignatures(verify: Verify, admin: Option<Key>, op: Operation, lookup: Lookup): Verdict {
    if op.signatures == [] then Failure(InvalidSignature) else
    var message := PutStripped(op, []);
    match op.payload
    case Transaction(ss, _, _, _) => SendersSigned(verify, lookup, ss, op.signatures, message)
    case AddressTransaction(ss, _, _) => SendersSigned(verify, lookup, ss, op.signatures, message)
    case MultiOperation(ss, _, _, _) => SendersSigned(verify, lookup, ss, op.signatures, message)
    case Data(a, _, _, _, ss, _, _) =>
      var account :- GetAccount(lookup, a);
      if !verify(op.signatures[0], account.key, message) then Failure(InvalidSignature)
      else SendersSigned(verify, lookup, ss, op.signatures[1..], message)
    case ValidatorAdmin(_) => AdminSigned(verify, admin, op.signatures, message)
    case CreateAccount(_, _, _) => AdminSigned(verify, admin, op.signatures, message)
    case _ =>
      if AccountOf(op.payload).None? then Success(()) else
      var account :- GetAccount(lookup, AccountOf(op.payload).value);
      if verify(op.signatures[0], account.key, message) then Success(()) else Failure(InvalidSignature)
  }

  function AdminSigned(verify: Verify, admin: Option<Key>, sigs: seq<Sig>, message: Bytes): Verdict {
    if admin.None? then Failure(AdminKeyNotConfigured)
    else if exists i | 0 <= i < |sigs| :: verify(sigs[i], admin.value, message) then Success(())
    else Failure(InvalidSignature)
  }

  /** The account exists and its key accepts this signature. */
  predicate SlotSigned(verify: Verify, lookup: Lookup, a: u64, sig: Sig, message: Bytes) {
    GetAccount(lookup, a).Success? && verify(sig, GetAccount(lookup, a).value.key, message)
  }

  /** Sender `i` exists and its own signature, in slot `i`, verifies under its key; there is a slot for every sender. */
  predicate SlotsSigned(verify: Verify, lookup: Lookup, ss: seq<Sender>, sigs: seq<Sig>, message: Bytes) {
    |ss| <= |sigs| && forall i | 0 <= i < |ss| :: SlotSigned(verify, lookup, ss[i].account, sigs[i], message)
  }

  lemma {:induction false} SendersAuthorized(verify: Verify, lookup: Lookup, ss: seq<Sender>, sigs: seq<Sig>, message: Bytes)
    ensures SendersSigned(verify, lookup, ss, sigs, message).Success? <==> SlotsSigned(verify, lookup, ss, sigs, message)
    decreases |ss|
  {
    if ss != [] && sigs != [] {
      SendersAuthorized(verify, lookup, ss[1..], sigs[1..], message);
      assert forall i | 0 < i < |ss| :: ss[i] == ss[1..][i - 1];
      assert forall i | 0 < i < |sigs| :: sigs[i] == sigs[1..][i - 1];
      if SlotsSigned(verify, lookup, ss, sigs, message) {
        assert SlotSigned(verify, lookup, ss[0].account, sigs[0], message);
        forall i | 0 <= i < |ss[1..]|
          ensures SlotSigned(verify, lookup, ss[1..][i].account, sigs[1..][i], message)
        {
          assert SlotSigned(verify, lookup, ss[i + 1].account, sigs[i + 1], message);
        }
      }
    } else if ss != [] {
      assert |ss| > |sigs|;
    }
  }

  /** Who must have signed the unsigned bytes of an operation, and in which slot. */
  predicate Authorized(verify: Verify, admin: Option<Key>, op: Operation, lookup: Lookup) {
    var p, sigs, message := op.payload, op.signatures, PutStripped(op, []);
    && sigs != []
    && (p.Transaction? || p.AddressTransaction? || p.MultiOperation? ==> SlotsSigned(verify, lookup, p.senders, sigs, message))
    && (p.Data? ==> SlotSigned(verify, lookup, p.account, sigs[0], message) && SlotsSigned(verify, lookup, p.senders, sigs[1..], message))
    && (p.ValidatorAdmin? || p.CreateAccount? ==> admin.Some? && exists i | 0 <= i < |sigs| :: verify(sigs[i], admin.value, message))
    && (!p.Data? && AccountOf(p).Some? ==> SlotSigned(verify, lookup, AccountOf(p).value, sigs[0], message))
  }

  /** Signatures pass exactly when everybody concerned has signed in their own slot; recoveries and both gift operations
      concern nobody, so for them any signature will do. */
  lemma SignaturesExact(verify: Verify, admin: Option<Key>, op: Operation, lookup: Lookup)
    ensures ValidateSignatures(verify, admin, op, lookup).Success? <==> Authorized(verify, admin, op, lookup)
  {
    hide SendersSigned, SlotsSigned, PutStripped, GetAccount;
    var p, sigs, message := op.payload, op.signatures, PutStripped(op, []);
    if sigs != [] {
      SendersAuthorized(verify, lookup, Senders(p), sigs, message);
      SendersAuthorized(verify, lookup, Senders(p), sigs[1..], message);
    }
  }

  // ---- Nonces ----

  function OnChain(lookup: Lookup, a: u64): u64 {
    match lookup(a)
    case Success(Some(account)) => account.nOperation
    case _ => 0
  }

  /** The nonce behind the largest pending one, in wrapping arithmetic, but never behind the chain. */
  function Expected(nonces: map<u64, u64>, onChain: u64, a: u64): u64 {
    var next := if a in nonces then (nonces[a] + 1) % U64_END else onChain;
    if next > onChain then next else onChain
  }

  function CheckNonce(nonces: map<u64, u64>, lookup: Lookup, k: Pair): Verdict {
    if lookup(k.0).Failure? then Failure(Storage(lookup(k.0).error)) else
    var expected := Expected(nonces, OnChain(lookup, k.0), k.0);
    if k.1 != expected then Failure(InvalidNOperation(k.0, expected, k.1)) else Success(())
  }

  /** A nonce that passes is not behind the chain, is above the largest pending one unless that was the last nonce, and
      follows it directly unless it is the chain's. */
  lemma PassingNonce(nonces: map<u64, u64>, lookup: Lookup, k: Pair)
    requires CheckNonce(nonces, lookup, k).Success?
    ensures k.1 >= OnChain(lookup, k.0)
    ensures k.0 in nonces && nonces[k.0] < U64_LAST ==> k.1 > nonces[k.0]
    ensures k.1 > OnChain(lookup, k.0) ==> k.0 in nonces && k.1 == nonces[k.0] + 1
  {
  }

  function CheckNonces(nonces: map<u64, u64>, lookup: Lookup, ks: seq<Pair>): Verdict {
    if ks == [] then Success(()) else
    var _ :- CheckNonce(nonces, lookup, ks[0]);
    CheckNonces(nonces, lookup, ks[1..])
  }

  lemma {:induction false} CheckedAll(nonces: map<u64, u64>, lookup: Lookup, ks: seq<Pair>)
    ensures CheckNonces(nonces, lookup, ks).Success? <==> forall k | k in ks :: CheckNonce(nonces, lookup, k).Success?
  {
    if ks != [] {
      CheckedAll(nonces, lookup, ks[1..]);
      assert ks == [ks[0]] + ks[1..];
    }
  }

  // ---- Value ----

  function Total(xs: seq<u64>): nat { if xs == [] then 0 else xs[0] + Total(xs[1..]) }

  /** Checked summation from the left. */
  function AddAll(acc: u64, xs: seq<u64>): Option<u64>
    decreases |xs|
  {
    if xs == [] then Some(acc)
    else if acc + xs[0] >= U64_END then None
    else AddAll(acc + xs[0], xs[1..])
  }

  function ValidateConservation(sent: seq<u64>, received: seq<u64>): Verdict {
    match (AddAll(0, sent), AddAll(0, received))
    case (Some(s), Some(r)) => if s == r then Success(()) else Failure(UnbalancedTransfer(s, r))
    case _ => Failure(TransferValueOverflow)
  }

  lemma {:induction false} AddAllExact(acc: u64, xs: seq<u64>)
    ensures AddAll(acc, xs) == if acc + Total(xs) < U64_END then Some(acc + Total(xs)) else None
    decreases |xs|
  {
    if xs != [] && acc + xs[0] < U64_END {
      AddAllExact(acc + xs[0], xs[1..]);
    }
  }

  /** Conservation is accepted exactly when the true totals agree and fit a `u64`. */
  lemma ConservationExact(sent: seq<u64>, received: seq<u64>)
    ensures ValidateConservation(sent, received).Success? <==> Total(sent) == Total(received) < U64_END
  {
    AddAllExact(0, sent);
    AddAllExact(0, received);
  }

  function Sent(p: Payload): (r: seq<u64>)
    ensures |r| == |Senders(p)|
  {
    var ss := Senders(p);
    seq(|ss|, i requires 0 <= i < |ss| => ss[i].amount)
  }

  function Received(p: Payload): seq<u64> {
    if p.AddressTransaction? then
      var rs := p.addressReceivers;
      seq(|rs|, i requires 0 <= i < |rs| => rs[i].amount)
    else if p.Transaction? || p.MultiOperation? || p.Data? then
      var rs := p.receivers;
      seq(|rs|, i requires 0 <= i < |rs| => rs[i].amount)
    else []
  }

  // ---- Balance, state and fee ----

  predicate Blocked(s: AccountState) { s.Reserved? || s.GiftPending? }

  function Saturating(a: u64, b: u64): u64 { if a + b < U64_END then a + b else U64_LAST }

  function SendersUnblocked(lookup: Lookup, ss: seq<Sender>): Verdict {
    if ss == [] then Success(()) else
    var account :- GetAccount(lookup, ss[0].account);
    if Blocked(account.state) then Failure(InvalidAccountState(ss[0].account)) else SendersUnblocked(lookup, ss[1..])
  }

  /** A receiver that does not exist yet is fine. */
  function ReceiversUnblocked(lookup: Lookup, rs: seq<Receiver>): Verdict {
    if rs == [] then Success(())
    else if lookup(rs[0].account).Failure? then Failure(Storage(lookup(rs[0].account).error))
    else if lookup(rs[0].account).value.Some? && Blocked(lookup(rs[0].account).value.value.state) then
      Failure(InvalidAccountState(rs[0].account))
    else ReceiversUnblocked(lookup, rs[1..])
  }

  function SendersFunded(lookup: Lookup, ss: seq<Sender>, fee: u64): Verdict {
    if ss == [] then Success(()) else
    var account :- GetAccount(lookup, ss[0].account);
    var total := Saturating(ss[0].amount, fee);
    if account.balance < total then Failure(InsufficientBalance(ss[0].account, account.balance, total))
    else SendersFunded(lookup, ss[1..], fee)
  }

  /** The checks of single-account payloads; `true` means the operation is accepted without looking at its fee. */
  function SpecialCase(config: Config, p: Payload, lookup: Lookup): Result<bool, MempoolError> {
    match p
    case CreateAccount(a, _, _) =>
      var account :- GetAccount(lookup, a);
      if account.state.Reserved? then Success(true) else Failure(InvalidAccountState(a))
    case ValidatorAdmin(_) => Success(true)
    case GiftAccount(a, _, _, fee) =>
      var account :- GetAccount(lookup, a);
      if account.state.GiftPending? then Failure(InvalidAccountState(a))
      else if account.balance < fee then Failure(InsufficientBalance(a, account.balance, fee))
      else Success(fee == 0 && account.state.Reserved?)
    case AcceptGift(a, _, fee) =>
      var account :- GetAccount(lookup, a);
      if !account.state.GiftPending? then Failure(InvalidAccountState(a))
      else if account.balance < fee then Failure(InsufficientBalance(a, account.balance, fee))
      else Success(fee == 0)
    case Contract(a, _, fee, _, _) =>
      var account :- GetAccount(lookup, a);
      if Blocked(account.state) then Failure(InvalidAccountState(a)) else
      var reserved := Saturating(fee, config.contractGasReserve);
      if account.balance < reserved then Failure(InsufficientBalance(a, account.balance, reserved)) else Success(false)
    case _ => Success(false)
  }

  function ValidateBalanceAndFee(config: Config, p: Payload, lookup: Lookup): Verdict {
    var done :- SpecialCase(config, p, lookup);
    if done then Success(()) else
    var transfer := p.Transaction? || p.MultiOperation?;
    var _ :- if transfer then SendersUnblocked(lookup, p.senders) else Success(());
    var _ :- if transfer then ReceiversUnblocked(lookup, p.receivers) else Success(());
    var _ :- ValidateConservation(Sent(p), Received(p));
    if FeeOf(p) < config.minFee then Failure(FeeTooLow(FeeOf(p), config.minFee))
    else if transfer then SendersFunded(lookup, p.senders, FeeOf(p))
    else if p.BuyAccount? then
      var account :- GetAccount(lookup, p.buyer);
      var total := Saturating(p.amount, p.fee);
      if account.balance < total then Failure(InsufficientBalance(p.buyer, account.balance, total)) else Success(())
    else Success(())
  }

  predicate MaySend(lookup: Lookup, a: u64) {
    GetAccount(lookup, a).Success? && !Blocked(GetAccount(lookup, a).value.state)
  }

  predicate MayReceive(lookup: Lookup, a: u64) {
    lookup(a).Success? && (lookup(a).value.Some? ==> !Blocked(lookup(a).value.value.state))
  }

  predicate Covers(lookup: Lookup, a: u64, amount: u64) {
    GetAccount(lookup, a).Success? && GetAccount(lookup, a).value.balance >= amount
  }

  lemma {:induction false} UnblockedAll(lookup: Lookup, ss: seq<Sender>)
    ensures SendersUnblocked(lookup, ss).Success? <==> forall s | s in ss :: MaySend(lookup, s.account)
  {
    if ss != [] {
      UnblockedAll(lookup, ss[1..]);
      assert ss == [ss[0]] + ss[1..];
    }
  }

  lemma {:induction false} ReceiversAll(lookup: Lookup, rs: seq<Receiver>)
    ensures ReceiversUnblocked(lookup, rs).Success? <==> forall r | r in rs :: MayReceive(lookup, r.account)
  {
    if rs != [] {
      ReceiversAll(lookup, rs[1..]);
      assert rs == [rs[0]] + rs[1..];
    }
  }

  lemma {:induction false} FundedAll(lookup: Lookup, ss: seq<Sender>, fee: u64)
    ensures SendersFunded(lookup, ss, fee).Success? <==> forall s | s in ss :: Covers(lookup, s.account, Saturating(s.amount, fee))
  {
    if ss != [] {
      FundedAll(lookup, ss[1..], fee);
      assert ss == [ss[0]] + ss[1..];
    }
  }
}
