/** The payload and operation codecs: self-delimiting and invertible for every variant. */
module PayloadCodec {
  import opened Bytes
  import opened Operations

  // ---- Encoding ----

  /** The three lists shared by transfers, multi-operations and data operations. */
  function PutLists(ss: seq<Sender>, rs: seq<Receiver>, cs: seq<Changer>, r: Bytes): Bytes {
    PutCounted(PutSender, ss, PutCounted(PutReceiver, rs, PutCounted(PutChanger, cs, r)))
  }

  function PutAdmin(a: AdminOp, r: Bytes): Bytes {
    match a
    case Add(k, h) => [0] + (FixedKey(k) + (U64(h) + r))
    case Remove(v, h) => [1] + (U64(v) + (U64(h) + r))
    case Activate(v, h) => [2] + (U64(v) + (U64(h) + r))
    case Deactivate(v, h) => [3] + (U64(v) + (U64(h) + r))
  }

  function PutBody(p: Payload, r: Bytes): Bytes {
    match p
    case Transaction(ss, rs, cs, fee) => PutLists(ss, rs, cs, U64(fee) + r)
    case AddressTransaction(ss, rs, fee) => PutCounted(PutSender, ss, PutCounted(PutAddressReceiver, rs, U64(fee) + r))
    case ChangeKey(a, n, fee, k) => U64(a) + (U64(n) + (U64(fee) + (FixedKey(k) + r)))
    case RecoverFounds(a) => U64(a) + r
    case ListAccountForSale(a, n, price, pay, k, locked, fee) =>
      U64(a) + (U64(n) + (U64(price) + (U64(pay) + (FixedKey(k) + (U64(locked) + (U64(fee) + r))))))
    case DelistAccount(a, n, fee) => U64(a) + (U64(n) + (U64(fee) + r))
    case BuyAccount(b, n, a, amount, fee, k, seller) =>
      U64(b) + (U64(n) + (U64(a) + (U64(amount) + (U64(fee) + (FixedKey(k) + (U64(seller) + r))))))
    case ChangeKeySigned(a, n, fee, k, sig) => U64(a) + (U64(n) + (U64(fee) + (FixedKey(k) + (FixedSig(sig) + r))))
    case ChangeAccountInfo(a, n, fee, k, name, typ, data, seal) =>
      U64(a) + (U64(n) + (U64(fee) + (FixedKey(k) + (Name16(name) + (U16(typ) + (Bytes16(data) + (Bytes16(seal) + r)))))))
    case MultiOperation(ss, rs, cs, fee) => PutLists(ss, rs, cs, U64(fee) + r)
    case Data(a, n, fee, data, ss, rs, cs) => U64(a) + (U64(n) + (U64(fee) + (Bytes16(data) + PutLists(ss, rs, cs, r))))
    case ValidatorAdmin(op) => PutAdmin(op, r)
    case CreateAccount(a, k, metadata) => U64(a) + (FixedKey(k) + (Bytes16(metadata) + r))
    case GiftAccount(a, n, k, fee) => U64(a) + (U64(n) + (FixedKey(k) + (U64(fee) + r)))
    case AcceptGift(a, n, fee) => U64(a) + (U64(n) + (U64(fee) + r))
    case Contract(a, n, fee, t, data) => U64(a) + (U64(n) + (U64(fee) + ([t] + (Bytes16(data) + r))))
  }

  function PutPayload(p: Payload, r: Bytes): Bytes { [TypeOf(p)] + PutBody(p, r) }

  /** What is signed: everything but the signatures. */
  function PutStripped(op: Operation, r: Bytes): Bytes { PutPayload(op.payload, U64(op.chainId) + r) }

  function PutOperation(op: Operation, r: Bytes): Bytes { PutStripped(op, PutCounted(PutSig, op.signatures, r)) }

  function Encode(op: Operation): Bytes { PutOperation(op, []) }

  // ---- Decoding ----

  type Lists = (seq<Sender>, seq<Receiver>, seq<Changer>)

  function ParseLists(s: Bytes): Parsed<Lists> {
    var (ss, s) :- ParseCounted(ParseSender, MAX_SENDERS, s);
    var (rs, s) :- ParseCounted(ParseReceiver, MAX_RECEIVERS, s);
    var (cs, s) :- ParseCounted(ParseChanger, MAX_CHANGERS, s);
    Success(((ss, rs, cs), s))
  }

  function ParseTransfer(multi: bool, s: Bytes): Parsed<Payload> {
    var (l, s) :- ParseLists(s);
    var (fee, s) :- ReadU64(s);
    Success((if multi then MultiOperation(l.0, l.1, l.2, fee) else Transaction(l.0, l.1, l.2, fee), s))
  }

  function ParseAddressTransfer(s: Bytes): Parsed<Payload> {
    var (ss, s) :- ParseCounted(ParseSender, MAX_SENDERS, s);
    var (rs, s) :- ParseCounted(ParseAddressReceiver, MAX_RECEIVERS, s);
    var (fee, s) :- ReadU64(s);
    Success((AddressTransaction(ss, rs, fee), s))
  }

  function ParseData(s: Bytes): Parsed<Payload> {
    var (a, s) :- ReadU64(s);
    var (n, s) :- ReadU64(s);
    var (fee, s) :- ReadU64(s);
    var (data, s) :- ReadBytes16(s);
    var (l, s) :- ParseLists(s);
    Success((Data(a, n, fee, data, l.0, l.1, l.2), s))
  }

  function ParseAdmin(s: Bytes): Parsed<AdminOp> {
    var (t, s) :- ReadU8(s);
    if t == 0 then
      var (k, s) :- ReadKey(s);
      var (h, s) :- ReadU64(s);
      Success((Add(k, h), s))
    else if t <= 3 then
      var (v, s) :- ReadU64(s);
      var (h, s) :- ReadU64(s);
      Success((if t == 1 then Remove(v, h) else if t == 2 then Activate(v, h) else Deactivate(v, h), s))
    else Failure(UnknownValidatorAdminTag(t))
  }

  function ParseSale(s: Bytes): Parsed<Payload> {
    var (a, s) :- ReadU64(s);
    var (n, s) :- ReadU64(s);
    var (price, s) :- ReadU64(s);
    var (pay, s) :- ReadU64(s);
    var (k, s) :- ReadKey(s);
    var (locked, s) :- ReadU64(s);
    var (fee, s) :- ReadU64(s);
    Success((ListAccountForSale(a, n, price, pay, k, locked, fee), s))
  }

  function ParsePurchase(s: Bytes): Parsed<Payload> {
    var (b, s) :- ReadU64(s);
    var (n, s) :- ReadU64(s);
    var (a, s) :- ReadU64(s);
    var (amount, s) :- ReadU64(s);
    var (fee, s) :- ReadU64(s);
    var (k, s) :- ReadKey(s);
    var (seller, s) :- ReadU64(s);
    Success((BuyAccount(b, n, a, amount, fee, k, seller), s))
  }

  function ParseInfo(s: Bytes): Parsed<Payload> {
    var (a, s) :- ReadU64(s);
    var (n, s) :- ReadU64(s);
    var (fee, s) :- ReadU64(s);
    var (k, s) :- ReadKey(s);
    var (name, s) :- ReadName16(s);
    var (typ, s) :- ReadU16(s);
    var (data, s) :- ReadBytes16(s);
    var (seal, s) :- ReadBytes16(s);
    Success((ChangeAccountInfo(a, n, fee, k, name, typ, data, seal), s))
  }

  /** The variants that carry one account, nonce and fee and at most one field more. */
  function ParseSmall(tag: byte, s: Bytes): Parsed<Payload> {
    var (a, s) :- ReadU64(s);
    if tag == 0x03 then Success((RecoverFounds(a), s))
    else if tag == 0x0C then
      var (k, s) :- ReadKey(s);
      var (metadata, s) :- ReadBytes16(s);
      Success((CreateAccount(a, k, metadata), s))
    else
      var (n, s) :- ReadU64(s);
      if tag == 0x0D then
        var (k, s) :- ReadKey(s);
        var (fee, s) :- ReadU64(s);
        Success((GiftAccount(a, n, k, fee), s))
      else
        var (fee, s) :- ReadU64(s);
        if tag == 0x02 then
          var (k, s) :- ReadKey(s);
          Success((ChangeKey(a, n, fee, k), s))
        else if tag == 0x05 then Success((DelistAccount(a, n, fee), s))
        else if tag == 0x07 then
          var (k, s) :- ReadKey(s);
          var (sig, s) :- ReadSig(s);
          Success((ChangeKeySigned(a, n, fee, k, sig), s))
        else if tag == 0x0E then Success((AcceptGift(a, n, fee), s))
        else
          var (t, s) :- ReadU8(s);
          var (data, s) :- ReadBytes16(s);
          Success((Contract(a, n, fee, t, data), s))
  }

  function ParsePayload(s: Bytes): Parsed<Payload> {
    var (tag, s) :- ReadU8(s);
    if tag == 0x01 || tag == 0x09 then ParseTransfer(tag == 0x09, s)
    else if tag == 0x0F then ParseAddressTransfer(s)
    else if tag == 0x04 then ParseSale(s)
    else if tag == 0x06 then ParsePurchase(s)
    else if tag == 0x08 then ParseInfo(s)
    else if tag == 0x0A then ParseData(s)
    else if tag == 0x0B then
      var (a, s) :- ParseAdmin(s);
      Success((ValidatorAdmin(a), s))
    else if tag in {0x02, 0x03, 0x05, 0x07, 0x0C, 0x0D, 0x0E, 0x10} then ParseSmall(tag, s)
    else Failure(UnknownOperationType(tag))
  }

  function ParseOperation(s: Bytes): Parsed<Operation> {
    var (p, s) :- ParsePayload(s);
    var (chain, s) :- ReadU64(s);
    var (sigs, s) :- ParseCounted(ReadSig, MAX_SIGNATURES, s);
    Success((Operation(TypeOf(p), p, chain, sigs), s))
  }

  /** Bytes behind the operation are ignored. */
  function Decode(s: Bytes): Result<Operation, DecodeError> {
    var (op, _) :- ParseOperation(s);
    Success(op)
  }

  /** The first byte on the wire, variant by variant. */
  lemma WireTags(p: Payload, r: Bytes)
    ensures var tag := PutPayload(p, r)[0];
            tag == match p
                   case Transaction(_, _, _, _) => 0x01
                   case ChangeKey(_, _, _, _) => 0x02
                   case RecoverFounds(_) => 0x03
                   case ListAccountForSale(_, _, _, _, _, _, _) => 0x04
                   case DelistAccount(_, _, _) => 0x05
                   case BuyAccount(_, _, _, _, _, _, _) => 0x06
                   case ChangeKeySigned(_, _, _, _, _) => 0x07
                   case ChangeAccountInfo(_, _, _, _, _, _, _, _) => 0x08
                   case MultiOperation(_, _, _, _) => 0x09
                   case Data(_, _, _, _, _, _, _) => 0x0A
                   case ValidatorAdmin(_) => 0x0B
                   case CreateAccount(_, _, _) => 0x0C
                   case GiftAccount(_, _, _, _) => 0x0D
                   case AcceptGift(_, _, _) => 0x0E
                   case AddressTransaction(_, _, _) => 0x0F
                   case Contract(_, _, _, _, _) => 0x10
  {
    hide PutBody;
  }

  /** A first byte that is no type is named in the error; nothing at all is an invalid serialization. */
  lemma UnknownTag(s: Bytes)
    ensures s == [] ==> Decode(s) == Failure(InvalidSerialization)
    ensures s != [] && !(0x01 <= s[0] <= 0x10) ==> Decode(s) == Failure(UnknownOperationType(s[0]))
  {
  }

  // ---- Round trips ----

  lemma ListsRoundTrip(ss: seq<Sender>, rs: seq<Receiver>, cs: seq<Changer>, r: Bytes)
    requires SendersOk(ss) && ReceiversOk(rs) && ChangersOk(cs)
    ensures ParseLists(PutLists(ss, rs, cs, r)) == Success(((ss, rs, cs), r))
  {
    hide ParseCounted, PutCounted, Inverts, SenderOk, ReceiverOk, ChangerOk;
    PartsInvert();
    ChangerInverts();
    var s3 := PutCounted(PutChanger, cs, r);
    var s2 := PutCounted(PutReceiver, rs, s3);
    CountedRoundTrip(PutChanger, ParseChanger, ChangerOk, MAX_CHANGERS, cs, r);
    CountedRoundTrip(PutReceiver, ParseReceiver, ReceiverOk, MAX_RECEIVERS, rs, s3);
    CountedRoundTrip(PutSender, ParseSender, SenderOk, MAX_SENDERS, ss, s2);
  }

  lemma AddressRoundTrip(p: Payload, r: Bytes)
    requires p.AddressTransaction? && PayloadOk(p)
    ensures ParseAddressTransfer(PutBody(p, r)) == Success((p, r))
  {
    hide ParseCounted, PutCounted, Inverts, SenderOk, AddressReceiverOk, ReadU64, U64;
    PartsInvert();
    Reads();
    var tail := U64(p.fee) + r;
    CountedRoundTrip(PutAddressReceiver, ParseAddressReceiver, AddressReceiverOk, MAX_RECEIVERS, p.addressReceivers, tail);
    CountedRoundTrip(PutSender, ParseSender, SenderOk, MAX_SENDERS, p.senders, PutCounted(PutAddressReceiver, p.addressReceivers, tail));
  }

  lemma SaleRoundTrip(p: Payload, r: Bytes)
    requires p.ListAccountForSale? || p.BuyAccount?
    ensures (if p.BuyAccount? then ParsePurchase(PutBody(p, r)) else ParseSale(PutBody(p, r))) == Success((p, r))
  {
    hide ReadU64, ReadKey, U64, FixedKey;
    Reads();
    Fields();
  }

  lemma InfoRoundTrip(p: Payload, r: Bytes)
    requires p.ChangeAccountInfo? && PayloadOk(p)
    ensures ParseInfo(PutBody(p, r)) == Success((p, r))
  {
    hide ReadU16, ReadU64, ReadBytes16, ReadName16, ReadKey, U16, U64, Bytes16, Name16, FixedKey, Fits16, NameOk;
    Reads();
    Fields();
  }

  lemma AdminRoundTrip(a: AdminOp, r: Bytes)
    ensures ParseAdmin(PutBody(ValidatorAdmin(a), r)) == Success((a, r))
  {
    hide ReadU8, ReadU64, ReadKey, U64, FixedKey;
    Reads();
    Fields();
  }

  predicate Small(p: Payload) { TypeOf(p) in {0x02, 0x03, 0x05, 0x07, 0x0C, 0x0D, 0x0E, 0x10} }

  lemma SmallRoundTrip(p: Payload, r: Bytes)
    requires Small(p) && PayloadOk(p)
    ensures ParseSmall(TypeOf(p), PutBody(p, r)) == Success((p, r))
  {
    hide *;
    if p.ChangeKeySigned? || p.Contract? || p.CreateAccount? || p.GiftAccount? {
      LongerRoundTrip(p, r);
    } else {
      assert p.ChangeKey? || p.RecoverFounds? || p.DelistAccount? || p.AcceptGift? by { SmallKinds(p); }
      ShorterRoundTrip(p, r);
    }
  }

  lemma SmallKinds(p: Payload)
    requires Small(p) && !p.ChangeKeySigned? && !p.Contract? && !p.CreateAccount? && !p.GiftAccount?
    ensures p.ChangeKey? || p.RecoverFounds? || p.DelistAccount? || p.AcceptGift?
  {
  }

  lemma ShorterRoundTrip(p: Payload, r: Bytes)
    requires p.ChangeKey? || p.RecoverFounds? || p.DelistAccount? || p.AcceptGift?
    ensures ParseSmall(TypeOf(p), PutBody(p, r)) == Success((p, r))
  {
    hide ReadU8, ReadU64, ReadBytes16, ReadKey, ReadSig, U64, Bytes16, FixedKey, FixedSig;
    Reads();
    Fields();
  }

  lemma LongerRoundTrip(p: Payload, r: Bytes)
    requires PayloadOk(p) && (p.ChangeKeySigned? || p.Contract? || p.CreateAccount? || p.GiftAccount?)
    ensures ParseSmall(TypeOf(p), PutBody(p, r)) == Success((p, r))
  {
    hide ReadU8, ReadU64, ReadBytes16, ReadKey, ReadSig, U64, Bytes16, FixedKey, FixedSig, Fits16;
    Reads();
    Fields();
  }

  lemma TransferRoundTrip(p: Payload, r: Bytes)
    requires PayloadOk(p) && (p.Transaction? || p.MultiOperation? || p.Data?)
    ensures ParsePayload(PutPayload(p, r)) == Success((p, r))
  {
    hide ReadU8, ReadU64, ReadBytes16, U64, Bytes16, Fits16, ParseLists, PutLists, SendersOk, ReceiversOk, ChangersOk;
    Reads();
    Fields();
    if p.Data? {
      ListsRoundTrip(p.senders, p.receivers, p.changers, r);
    } else {
      ListsRoundTrip(p.senders, p.receivers, p.changers, U64(p.fee) + r);
    }
  }

  /** Every payload variant reads back, and the reader stops exactly at what follows. */
  lemma PayloadRoundTrip(p: Payload, r: Bytes)
    requires PayloadOk(p)
    ensures ParsePayload(PutPayload(p, r)) == Success((p, r))
  {
    hide ReadU8, PutBody, ParseTransfer, ParseAddressTransfer, ParseSale, ParsePurchase, ParseInfo, ParseData, ParseAdmin, ParseSmall,
         PayloadOk;
    Reads();
    match p
    case Transaction(_, _, _, _) => TransferRoundTrip(p, r);
    case MultiOperation(_, _, _, _) => TransferRoundTrip(p, r);
    case Data(_, _, _, _, _, _, _) => TransferRoundTrip(p, r);
    case AddressTransaction(_, _, _) => AddressRoundTrip(p, r);
    case ListAccountForSale(_, _, _, _, _, _, _) => SaleRoundTrip(p, r);
    case BuyAccount(_, _, _, _, _, _, _) => SaleRoundTrip(p, r);
    case ChangeAccountInfo(_, _, _, _, _, _, _, _) => InfoRoundTrip(p, r);
    case ValidatorAdmin(a) => AdminRoundTrip(a, r);
    case _ => SmallRoundTrip(p, r);
  }

  lemma OperationRoundTrip(op: Operation, r: Bytes)
    requires OperationOk(op)
    ensures ParseOperation(PutOperation(op, r)) == Success((op, r))
  {
    hide ParsePayload, PutPayload, PayloadOk, ReadU64, U64, ParseCounted, PutCounted, Inverts;
    Reads();
    ChangerInverts();
    var tail := PutCounted(PutSig, op.signatures, r);
    PayloadRoundTrip(op.payload, U64(op.chainId) + tail);
    CountedRoundTrip(PutSig, ReadSig, (s: Sig) => true, MAX_SIGNATURES, op.signatures, r);
  }

  /** Decoding an encoding gives the operation back, whatever bytes follow it. */
  lemma DecodeEncode(op: Operation, r: Bytes)
    requires OperationOk(op)
    ensures Decode(PutOperation(op, r)) == Success(op)
  {
    OperationRoundTrip(op, r);
  }

  /** Two well-formed operations with the same encoding are the same operation. */
  lemma EncodeInjective(a: Operation, b: Operation)
    requires OperationOk(a) && OperationOk(b) && Encode(a) == Encode(b)
    ensures a == b
  {
    hide PutOperation, ParseOperation, OperationOk;
    OperationRoundTrip(a, []);
    OperationRoundTrip(b, []);
  }

  // ---- Whatever decodes is well-formed ----

  lemma ListsOk(s: Bytes)
    ensures ParseLists(s).Success? ==>
              var (ss, rs, cs) := ParseLists(s).value.0; SendersOk(ss) && ReceiversOk(rs) && ChangersOk(cs)
  {
    hide ReadU64, ReadU16, ReadU32, ReadBytes16, ReadName16, ReadKey, ParseAll, Fits16, NameOk;
    var a := ReadU32(s);
    if ParseLists(s).Success? {
      ParsedOk(ParseSender, SenderOk, a.value.0, a.value.1);
      var b := ReadU32(ParseCounted(ParseSender, MAX_SENDERS, s).value.1);
      ParsedOk(ParseReceiver, ReceiverOk, b.value.0, b.value.1);
      var c := ReadU32(ParseCounted(ParseReceiver, MAX_RECEIVERS, ParseCounted(ParseSender, MAX_SENDERS, s).value.1).value.1);
      ParsedOk(ParseChanger, ChangerOk, c.value.0, c.value.1);
    }
  }

  lemma AddressOk(s: Bytes)
    ensures ParseAddressTransfer(s).Success? ==> PayloadOk(ParseAddressTransfer(s).value.0)
  {
    hide ReadU8, ReadU64, ReadU32, ReadBytes16, ReadAddress, ReadKey, ParseAll, Fits16;
    if ParseAddressTransfer(s).Success? {
      var a := ReadU32(s);
      ParsedOk(ParseSender, SenderOk, a.value.0, a.value.1);
      var b := ReadU32(ParseCounted(ParseSender, MAX_SENDERS, s).value.1);
      ParsedOk(ParseAddressReceiver, AddressReceiverOk, b.value.0, b.value.1);
    }
  }

  lemma PayloadDecodesOk(s: Bytes)
    ensures ParsePayload(s).Success? ==> PayloadOk(ParsePayload(s).value.0)
  {
    hide ReadU8, ReadU16, ReadU64, ReadBytes16, ReadName16, ReadKey, ReadSig, ParseLists, ParseCounted, ParseAddressTransfer,
         SendersOk, ReceiversOk, ChangersOk, AddressReceiversOk, Fits16, NameOk;
    var body := ReadU8(s);
    if body.Success? {
      ListsOk(body.value.1);
      AddressOk(body.value.1);
      if ParseData(body.value.1).Success? {
        ListsOk(ReadBytes16(ReadU64(ReadU64(ReadU64(body.value.1).value.1).value.1).value.1).value.1);
      }
    }
  }

  /** Every operation that comes off the wire is well-formed, so it has one encoding and that encoding determines it. */
  lemma DecodedOk(s: Bytes)
    ensures Decode(s).Success? ==> OperationOk(Decode(s).value)
  {
    hide ParsePayload, PayloadOk, ReadU64;
    PayloadDecodesOk(s);
  }

  // ---- Encodings fit a u32 length ----

  lemma {:induction false} AllLength<T>(put: (T, Bytes) -> Bytes, c: nat, xs: seq<T>, r: Bytes)
    requires forall x, t | x in xs :: |put(x, t)| <= |t| + c
    ensures |PutAll(put, xs, r)| <= |r| + |xs| * c
  {
    if xs != [] {
      AllLength(put, c, xs[1..], r);
      assert |put(xs[0], PutAll(put, xs[1..], r))| <= |PutAll(put, xs[1..], r)| + c;
      assert |xs| * c == |xs[1..]| * c + c;
    }
  }

  lemma Scaled(n: nat, max: nat, c: nat)
    requires n <= max
    ensures n * c <= max * c
  {
    assert max * c == n * c + (max - n) * c;
  }

  lemma CountedLength<T>(put: (T, Bytes) -> Bytes, c: nat, max: nat, xs: seq<T>, r: Bytes)
    requires |xs| <= max && forall x, t | x in xs :: |put(x, t)| <= |t| + c
    ensures |PutCounted(put, xs, r)| <= |r| + 4 + max * c
  {
    hide PutAll, U32;
    AllLength(put, c, xs, r);
    Scaled(|xs|, max, c);
  }

  const SENDER_MAX := 65561
  const RECEIVER_MAX := 65609
  const CHANGER_MAX := 196670

  lemma ListsLength(ss: seq<Sender>, rs: seq<Receiver>, cs: seq<Changer>, r: Bytes)
    requires SendersOk(ss) && ReceiversOk(rs) && ChangersOk(cs)
    ensures |PutLists(ss, rs, cs, r)| <= |r| + 12 + 100 * SENDER_MAX + 1000 * RECEIVER_MAX + 100 * CHANGER_MAX
  {
    hide PutCounted, U16, U64, Utf8;
    var s3 := PutCounted(PutChanger, cs, r);
    var s2 := PutCounted(PutReceiver, rs, s3);
    CountedLength(PutChanger, CHANGER_MAX, MAX_CHANGERS, cs, r);
    CountedLength(PutReceiver, RECEIVER_MAX, MAX_RECEIVERS, rs, s3);
    CountedLength(PutSender, SENDER_MAX, MAX_SENDERS, ss, s2);
  }

  lemma AddressLength(p: Payload, r: Bytes)
    requires p.AddressTransaction? && PayloadOk(p)
    ensures |PutBody(p, r)| <= |r| + 16 + 100 * SENDER_MAX + 1000 * RECEIVER_MAX
  {
    hide PutCounted, U64;
    CountedLength(PutAddressReceiver, RECEIVER_MAX, MAX_RECEIVERS, p.addressReceivers, U64(p.fee) + r);
    CountedLength(PutSender, SENDER_MAX, MAX_SENDERS, p.senders, PutCounted(PutAddressReceiver, p.addressReceivers, U64(p.fee) + r));
  }

  lemma BodyLength(p: Payload, r: Bytes)
    requires PayloadOk(p)
    ensures |PutBody(p, r)| < |r| + 0x1000_0000
  {
    hide U16, U64, PutLists, PutCounted, SendersOk, ReceiversOk, ChangersOk, AddressReceiversOk, Utf8;
    if p.Transaction? || p.MultiOperation? {
      ListsLength(p.senders, p.receivers, p.changers, U64(p.fee) + r);
    } else if p.Data? {
      ListsLength(p.senders, p.receivers, p.changers, r);
    } else if p.AddressTransaction? {
      AddressLength(p, r);
    }
  }

  lemma EncodeLength(op: Operation)
    requires OperationOk(op)
    ensures |Encode(op)| < 0x1_0000_0000
  {
    hide PutBody, PutCounted, U64, PayloadOk;
    CountedLength(PutSig, 64, MAX_SIGNATURES, op.signatures, []);
    BodyLength(op.payload, U64(op.chainId) + PutCounted(PutSig, op.signatures, []));
  }
}
