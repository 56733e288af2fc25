/** Operations and their canonical wire format. */
module Operations {
  import opened Bytes

  const MAX_SENDERS := 100
  const MAX_RECEIVERS := 1000
  const MAX_CHANGERS := 100
  const MAX_SIGNATURES := 200

  type Key = s: Bytes | |s| == 32 witness seq(32, _ => 0)
  type Sig = s: Bytes | |s| == 64 witness seq(64, _ => 0)
  type AddressHash = s: Bytes | |s| == 24 witness seq(24, _ => 0)

  /** Signature verification: signature, public key, message. A key that is no curve point accepts nothing. */
  type Verify = (Sig, Key, Bytes) -> bool

  datatype Sender = Sender(account: u64, nOperation: u64, amount: u64, payload: Bytes)
  datatype Receiver = Receiver(account: u64, amount: u64, payload: Bytes)
  datatype AddressReceiver = AddressReceiver(hash: AddressHash, publicKey: Option<Key>, amount: u64, payload: Bytes)
  datatype Changer = Changer(
    account: u64, nOperation: u64, newKey: Key, newName: Option<Bytes>, newType: u16,
    newData: Bytes, newSeal: Bytes, fee: u64)

  datatype AdminOp =
    | Add(publicKey: Key, activationHeight: u64)
    | Remove(validatorId: u64, activationHeight: u64)
    | Activate(validatorId: u64, activationHeight: u64)
    | Deactivate(validatorId: u64, activationHeight: u64)

  datatype Payload =
    | Transaction(senders: seq<Sender>, receivers: seq<Receiver>, changers: seq<Changer>, fee: u64)
    | AddressTransaction(senders: seq<Sender>, addressReceivers: seq<AddressReceiver>, fee: u64)
    | ChangeKey(account: u64, nOperation: u64, fee: u64, newKey: Key)
    | RecoverFounds(account: u64)
    | ListAccountForSale(account: u64, nOperation: u64, salePrice: u64, accountToPay: u64, newKey: Key, lockedUntil: u64, fee: u64)
    | DelistAccount(account: u64, nOperation: u64, fee: u64)
    | BuyAccount(buyer: u64, nOperation: u64, purchase: u64, amount: u64, fee: u64, newKey: Key, seller: u64)
    | ChangeKeySigned(account: u64, nOperation: u64, fee: u64, newKey: Key, newSig: Sig)
    | ChangeAccountInfo(account: u64, nOperation: u64, fee: u64, newKey: Key, newName: Option<Bytes>, newType: u16, newData: Bytes, newSeal: Bytes)
    | MultiOperation(senders: seq<Sender>, receivers: seq<Receiver>, changers: seq<Changer>, fee: u64)
    | Data(account: u64, nOperation: u64, fee: u64, data: Bytes, senders: seq<Sender>, receivers: seq<Receiver>, changers: seq<Changer>)
    | ValidatorAdmin(admin: AdminOp)
    | CreateAccount(account: u64, newKey: Key, metadata: Bytes)
    | GiftAccount(account: u64, nOperation: u64, recipientKey: Key, fee: u64)
    | AcceptGift(account: u64, nOperation: u64, fee: u64)
    | Contract(account: u64, nOperation: u64, fee: u64, opType: byte, data: Bytes)

  /** The stored type tag is a field of its own and is not part of the encoding. */
  datatype Operation = Operation(opType: byte, payload: Payload, chainId: u64, signatures: seq<Sig>)

  function TypeOf(p: Payload): byte {
    match p
    case Transaction(_, _, _, _) => 0x01
    case AddressTransaction(_, _, _) => 0x0F
    case ChangeKey(_, _, _, _) => 0x02
    case RecoverFounds(_) => 0x03
    case ListAccountForSale(_, _, _, _, _, _, _) => 0x04
    case DelistAccount(_, _, _) => 0x05
    case BuyAccount(_, _, _, _, _, _, _) => 0x06
    case ChangeKeySigned(_, _, _, _, _) => 0x07
    case ChangeAccountInfo(_, _, _, _, _, _, _, _) => 0x08
    case MultiOperation(_, _, _, _) => 0x09
    case Data(_, _, _, _, _, _, _) => 0x0A
    case ValidatorAdmin(_) => 0x0B
    case CreateAccount(_, _, _) => 0x0C
    case GiftAccount(_, _, _, _) => 0x0D
    case AcceptGift(_, _, _) => 0x0E
    case Contract(_, _, _, _, _) => 0x10
  }

  // ---- What fits the format ----

  predicate Fits16(b: Bytes) { |b| < 0x1_0000 }

  /** A name of 0xFFFF bytes would read back as no name at all. */
  predicate NameOk(n: Option<Bytes>) { n.Some? ==> |n.value| < 0xFFFF && Utf8(n.value) }

  predicate SenderOk(s: Sender) { Fits16(s.payload) }
  predicate ReceiverOk(r: Receiver) { Fits16(r.payload) }
  predicate AddressReceiverOk(r: AddressReceiver) { Fits16(r.payload) }
  predicate ChangerOk(c: Changer) { NameOk(c.newName) && Fits16(c.newData) && Fits16(c.newSeal) }

  predicate SendersOk(ss: seq<Sender>) { |ss| <= 100 && forall s | s in ss :: SenderOk(s) }
  predicate ReceiversOk(rs: seq<Receiver>) { |rs| <= 1000 && forall r | r in rs :: ReceiverOk(r) }
  predicate AddressReceiversOk(rs: seq<AddressReceiver>) { |rs| <= 1000 && forall r | r in rs :: AddressReceiverOk(r) }
  predicate ChangersOk(cs: seq<Changer>) { |cs| <= 100 && forall c | c in cs :: ChangerOk(c) }

  predicate PayloadOk(p: Payload) {
    match p
    case Transaction(ss, rs, cs, _) => SendersOk(ss) && ReceiversOk(rs) && ChangersOk(cs)
    case AddressTransaction(ss, rs, _) => SendersOk(ss) && AddressReceiversOk(rs)
    case ChangeAccountInfo(_, _, _, _, name, _, data, seal) => NameOk(name) && Fits16(data) && Fits16(seal)
    case MultiOperation(ss, rs, cs, _) => SendersOk(ss) && ReceiversOk(rs) && ChangersOk(cs)
    case Data(_, _, _, data, ss, rs, cs) => Fits16(data) && SendersOk(ss) && ReceiversOk(rs) && ChangersOk(cs)
    case CreateAccount(_, _, metadata) => Fits16(metadata)
    case Contract(_, _, _, _, data) => Fits16(data)
    case _ => true
  }

  predicate OperationOk(op: Operation) {
    op.opType == TypeOf(op.payload) && PayloadOk(op.payload) && |op.signatures| <= 200
  }

  // ---- Fields ----

  function FixedKey(k: Key): Bytes { k }
  function FixedSig(s: Sig): Bytes { s }
  function FixedAddress(a: AddressHash): Bytes { a }

  /** Lengths are cast to `u16`. */
  function Bytes16(b: Bytes): Bytes { U16(|b| % 0x1_0000) + b }

  function Name16(n: Option<Bytes>): Bytes {
    match n
    case Some(b) => Bytes16(b)
    case None => U16(0xFFFF)
  }

  function ReadKey(s: Bytes): (r: Parsed<Key>)
    ensures r.Success? ==> |s| == 32 + |r.value.1|
  {
    var (b, s) :- ReadFixed(s, 32);
    Success((b, s))
  }

  function ReadSig(s: Bytes): (r: Parsed<Sig>)
    ensures r.Success? ==> |s| == 64 + |r.value.1|
  {
    var (b, s) :- ReadFixed(s, 64);
    Success((b, s))
  }

  function ReadAddress(s: Bytes): Parsed<AddressHash> {
    var (b, s) :- ReadFixed(s, 24);
    Success((b, s))
  }

  function ReadBytes16(s: Bytes): (r: Parsed<Bytes>)
    ensures r.Success? ==> Fits16(r.value.0) && |s| == 2 + |r.value.0| + |r.value.1|
  {
    var (n, s) :- ReadU16(s);
    ReadFixed(s, n)
  }

  function ReadName16(s: Bytes): (r: Parsed<Option<Bytes>>)
    ensures r.Success? ==> NameOk(r.value.0)
  {
    var (n, s) :- ReadU16(s);
    if n == 0xFFFF then Success((None, s)) else
    var (b, s) :- ReadFixed(s, n);
    if Utf8(b) then Success((Some(b), s)) else Failure(InvalidSerialization)
  }

  lemma Bytes16Read(b: Bytes, r: Bytes)
    requires Fits16(b)
    ensures ReadBytes16(Bytes16(b) + r) == Success((b, r))
    ensures NameOk(Some(b)) ==> ReadName16(Bytes16(b) + r) == Success((Some(b), r))
  {
    hide ReadU16, U16, Utf8;
    assert (U16(|b|) + b) + r == U16(|b|) + (b + r);
    Reads();
    Front(b, r);
  }

  lemma Fields()
    ensures forall k: Key, r: Bytes {:trigger FixedKey(k) + r} :: ReadKey(FixedKey(k) + r) == Success((k, r))
    ensures forall k: Sig, r: Bytes {:trigger FixedSig(k) + r} :: ReadSig(FixedSig(k) + r) == Success((k, r))
    ensures forall k: AddressHash, r: Bytes {:trigger FixedAddress(k) + r} :: ReadAddress(FixedAddress(k) + r) == Success((k, r))
    ensures forall b: Bytes, r: Bytes {:trigger Bytes16(b) + r} :: Fits16(b) ==> ReadBytes16(Bytes16(b) + r) == Success((b, r))
    ensures forall n: Option<Bytes>, r: Bytes {:trigger Name16(n) + r} :: NameOk(n) ==> ReadName16(Name16(n) + r) == Success((n, r))
  {
    hide ReadBytes16, Bytes16, ReadFixed, Utf8, ReadU16, U16;
    forall k: Key, r: Bytes
      ensures ReadKey(FixedKey(k) + r) == Success((k, r))
    {
      Front(k, r);
    }
    forall k: Sig, r: Bytes
      ensures ReadSig(FixedSig(k) + r) == Success((k, r))
    {
      Front(k, r);
    }
    forall k: AddressHash, r: Bytes
      ensures ReadAddress(FixedAddress(k) + r) == Success((k, r))
    {
      Front(k, r);
    }
    forall b: Bytes, r: Bytes | Fits16(b)
      ensures ReadBytes16(Bytes16(b) + r) == Success((b, r))
    {
      Bytes16Read(b, r);
    }
    forall n: Option<Bytes>, r: Bytes | NameOk(n)
      ensures ReadName16(Name16(n) + r) == Success((n, r))
    {
      match n {
        case Some(b) => Bytes16Read(b, r);
        case None => Reads();
      }
    }
  }

  // ---- Counted lists ----

  function PutAll<T>(put: (T, Bytes) -> Bytes, xs: seq<T>, r: Bytes): Bytes {
    if xs == [] then r else put(xs[0], PutAll(put, xs[1..], r))
  }

  function PutCounted<T>(put: (T, Bytes) -> Bytes, xs: seq<T>, r: Bytes): Bytes {
    U32(|xs| % 0x1_0000_0000) + PutAll(put, xs, r)
  }

  function ParseAll<T>(parse: Bytes -> Parsed<T>, n: nat, s: Bytes): (r: Parsed<seq<T>>)
    ensures r.Success? ==> |r.value.0| == n
  {
    if n == 0 then Success(([], s)) else
    var (x, s) :- parse(s);
    var (xs, s) :- ParseAll(parse, n - 1, s);
    Success(([x] + xs, s))
  }

  /** Counts above the protocol maximum are refused before anything is read. */
  function ParseCounted<T>(parse: Bytes -> Parsed<T>, max: nat, s: Bytes): (r: Parsed<seq<T>>)
    ensures r.Success? ==> |r.value.0| <= max
  {
    var (n, s) :- ReadU32(s);
    if n > max then Failure(InvalidSerialization) else ParseAll(parse, n, s)
  }

  ghost predicate Inverts<T(!new)>(put: (T, Bytes) -> Bytes, parse: Bytes -> Parsed<T>, ok: T -> bool) {
    forall x: T, r: Bytes | ok(x) :: parse(put(x, r)) == Success((x, r))
  }

  lemma {:induction false} AllRoundTrip<T(!new)>(put: (T, Bytes) -> Bytes, parse: Bytes -> Parsed<T>, ok: T -> bool, xs: seq<T>, r: Bytes)
    requires Inverts(put, parse, ok) && forall x | x in xs :: ok(x)
    ensures ParseAll(parse, |xs|, PutAll(put, xs, r)) == Success((xs, r))
  {
    if xs != [] {
      AllRoundTrip(put, parse, ok, xs[1..], r);
      assert [xs[0]] + xs[1..] == xs;
      assert ok(xs[0]);
    }
  }

  lemma CountedRoundTrip<T(!new)>(put: (T, Bytes) -> Bytes, parse: Bytes -> Parsed<T>, ok: T -> bool, max: nat, xs: seq<T>, r: Bytes)
    requires Inverts(put, parse, ok) && |xs| <= max < 0x1_0000_0000 && forall x | x in xs :: ok(x)
    ensures ParseCounted(parse, max, PutCounted(put, xs, r)) == Success((xs, r))
  {
    hide ReadU32, U32;
    Reads();
    AllRoundTrip(put, parse, ok, xs, r);
  }

  lemma {:induction false} ParsedOk<T(!new)>(parse: Bytes -> Parsed<T>, ok: T -> bool, n: nat, s: Bytes)
    requires forall t :: parse(t).Success? ==> ok(parse(t).value.0)
    ensures ParseAll(parse, n, s).Success? ==> forall x | x in ParseAll(parse, n, s).value.0 :: ok(x)
  {
    if n > 0 && parse(s).Success? {
      ParsedOk(parse, ok, n - 1, parse(s).value.1);
    }
  }

  // ---- Parts ----

  function PutSender(x: Sender, r: Bytes): Bytes {
    U64(x.account) + (U64(x.nOperation) + (U64(x.amount) + (Bytes16(x.payload) + r)))
  }

  function ParseSender(s: Bytes): Parsed<Sender> {
    var (account, s) :- ReadU64(s);
    var (n, s) :- ReadU64(s);
    var (amount, s) :- ReadU64(s);
    var (payload, s) :- ReadBytes16(s);
    Success((Sender(account, n, amount, payload), s))
  }

  function PutReceiver(x: Receiver, r: Bytes): Bytes {
    U64(x.account) + (U64(x.amount) + (Bytes16(x.payload) + r))
  }

  function ParseReceiver(s: Bytes): Parsed<Receiver> {
    var (account, s) :- ReadU64(s);
    var (amount, s) :- ReadU64(s);
    var (payload, s) :- ReadBytes16(s);
    Success((Receiver(account, amount, payload), s))
  }

  function PutAddressReceiver(x: AddressReceiver, r: Bytes): Bytes {
    var tail := U64(x.amount) + (Bytes16(x.payload) + r);
    FixedAddress(x.hash) + (match x.publicKey case Some(k) => [1] + (FixedKey(k) + tail) case None => [0] + tail)
  }

  /** Any flag byte other than 1 means there is no public key. */
  function ParseAddressReceiver(s: Bytes): Parsed<AddressReceiver> {
    var (hash, s) :- ReadAddress(s);
    var (flag, s) :- ReadU8(s);
    if flag == 1 then
      var (k, s) :- ReadKey(s);
      var (amount, s) :- ReadU64(s);
      var (payload, s) :- ReadBytes16(s);
      Success((AddressReceiver(hash, Some(k), amount, payload), s))
    else
      var (amount, s) :- ReadU64(s);
      var (payload, s) :- ReadBytes16(s);
      Success((AddressReceiver(hash, None, amount, payload), s))
  }

  function PutChanger(x: Changer, r: Bytes): Bytes {
    U64(x.account) + (U64(x.nOperation) + (FixedKey(x.newKey) + (Name16(x.newName) + (U16(x.newType)
      + (Bytes16(x.newData) + (Bytes16(x.newSeal) + (U64(x.fee) + r)))))))
  }

  function ParseChanger(s: Bytes): Parsed<Changer> {
    var (account, s) :- ReadU64(s);
    var (n, s) :- ReadU64(s);
    var (key, s) :- ReadKey(s);
    var (name, s) :- ReadName16(s);
    var (typ, s) :- ReadU16(s);
    var (data, s) :- ReadBytes16(s);
    var (seal, s) :- ReadBytes16(s);
    var (fee, s) :- ReadU64(s);
    Success((Changer(account, n, key, name, typ, data, seal, fee), s))
  }

  function PutSig(x: Sig, r: Bytes): Bytes { FixedSig(x) + r }

  lemma PartsInvert()
    ensures Inverts(PutSender, ParseSender, SenderOk)
    ensures Inverts(PutReceiver, ParseReceiver, ReceiverOk)
    ensures Inverts(PutAddressReceiver, ParseAddressReceiver, AddressReceiverOk)
  {
    hide ReadU8, ReadU64, ReadBytes16, ReadAddress, ReadKey, U64, Bytes16, FixedAddress, FixedKey, Fits16;
    Reads();
    Fields();
  }

  lemma ChangerInverts()
    ensures Inverts(PutChanger, ParseChanger, ChangerOk)
    ensures Inverts(PutSig, ReadSig, (s: Sig) => true)
  {
    hide ReadU16, ReadU64, ReadBytes16, ReadName16, ReadKey, ReadSig, U16, U64, Bytes16, Name16, FixedKey, FixedSig, Fits16, NameOk;
    Reads();
    Fields();
  }
}
