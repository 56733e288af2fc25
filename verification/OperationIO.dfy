/** Reading and writing operations through the cursor and the buffer, loop by loop. */
module OperationIO {
  import opened Bytes
  import opened Codec
  import opened Operations
  import opened PayloadCodec

  // ---- Reading ----

  method TakeKey(r: Reader) returns (v: Result<Key, DecodeError>)
    requires r.Valid()
    modifies r
    ensures r.Valid() && Took(v, ReadKey(old(r.Rest())), r.Rest())
  {
    var b :- r.Fixed(32);
    v := Success(b);
  }

  method TakeSig(r: Reader) returns (v: Result<Sig, DecodeError>)
    requires r.Valid()
    modifies r
    ensures r.Valid() && Took(v, ReadSig(old(r.Rest())), r.Rest())
  {
    var b :- r.Fixed(64);
    v := Success(b);
  }

  method TakeBytes16(r: Reader) returns (v: Result<Bytes, DecodeError>)
    requires r.Valid()
    modifies r
    ensures r.Valid() && Took(v, ReadBytes16(old(r.Rest())), r.Rest())
  {
    var n :- r.U16();
    v := r.Fixed(n);
  }

  method TakeName16(r: Reader) returns (v: Result<Option<Bytes>, DecodeError>)
    requires r.Valid()
    modifies r
    ensures r.Valid() && Took(v, ReadName16(old(r.Rest())), r.Rest())
  {
    hide Utf8;
    var n :- r.U16();
    if n == 0xFFFF {
      return Success(None);
    }
    var b :- r.Fixed(n);
    v := if Utf8(b) then Success(Some(b)) else Failure(InvalidSerialization);
  }

  method TakeSender(r: Reader) returns (v: Result<Sender, DecodeError>)
    requires r.Valid()
    modifies r
    ensures r.Valid() && Took(v, ParseSender(old(r.Rest())), r.Rest())
  {
    hide ReadU64, ReadBytes16, Reader.Rest;
    var account :- r.U64();
    var n :- r.U64();
    var amount :- r.U64();
    var payload :- TakeBytes16(r);
    v := Success(Sender(account, n, amount, payload));
  }

  method TakeReceiver(r: Reader) returns (v: Result<Receiver, DecodeError>)
    requires r.Valid()
    modifies r
    ensures r.Valid() && Took(v, ParseReceiver(old(r.Rest())), r.Rest())
  {
    hide ReadU64, ReadBytes16, Reader.Rest;
    var account :- r.U64();
    var amount :- r.U64();
    var payload :- TakeBytes16(r);
    v := Success(Receiver(account, amount, payload));
  }

  method TakeAddressReceiver(r: Reader) returns (v: Result<AddressReceiver, DecodeError>)
    requires r.Valid()
    modifies r
    ensures r.Valid() && Took(v, ParseAddressReceiver(old(r.Rest())), r.Rest())
  {
    hide ReadU8, ReadU64, ReadBytes16, ReadKey, Reader.Rest;
    var hash :- r.Fixed(24);
    var flag :- r.U8();
    var key := None;
    if flag == 1 {
      var k :- TakeKey(r);
      key := Some(k);
    }
    var amount :- r.U64();
    var payload :- TakeBytes16(r);
    v := Success(AddressReceiver(hash, key, amount, payload));
  }

  method TakeChanger(r: Reader) returns (v: Result<Changer, DecodeError>)
    requires r.Valid()
    modifies r
    ensures r.Valid() && Took(v, ParseChanger(old(r.Rest())), r.Rest())
  {
    hide ReadU16, ReadU64, ReadBytes16, ReadKey, ReadName16, Reader.Rest;
    var account :- r.U64();
    var n :- r.U64();
    var key :- TakeKey(r);
    var name :- TakeName16(r);
    var typ :- r.U16();
    var data :- TakeBytes16(r);
    var seal :- TakeBytes16(r);
    var fee :- r.U64();
    v := Success(Changer(account, n, key, name, typ, data, seal, fee));
  }

  /** What a counted read returns once `xs` have been read and `more` is the rest of the read. */
  function Resume<T>(xs: seq<T>, more: Parsed<seq<T>>): Parsed<seq<T>> {
    match more
    case Success((ys, s)) => Success((xs + ys, s))
    case Failure(e) => Failure(e)
  }

  lemma ResumeStep<T>(parse: Bytes -> Parsed<T>, n: nat, xs: seq<T>, s: Bytes)
    requires n > 0
    ensures parse(s).Failure? ==> Resume(xs, ParseAll(parse, n, s)) == Failure(parse(s).error)
    ensures parse(s).Success? ==>
              Resume(xs, ParseAll(parse, n, s)) == Resume(xs + [parse(s).value.0], ParseAll(parse, n - 1, parse(s).value.1))
  {
    if parse(s).Success? && ParseAll(parse, n - 1, parse(s).value.1).Success? {
      var ys := ParseAll(parse, n - 1, parse(s).value.1).value.0;
      assert (xs + [parse(s).value.0]) + ys == xs + ([parse(s).value.0] + ys);
    }
  }

  method TakeSenders(r: Reader) returns (v: Result<seq<Sender>, DecodeError>)
    requires r.Valid()
    modifies r
    ensures r.Valid() && Took(v, ParseCounted(ParseSender, MAX_SENDERS, old(r.Rest())), r.Rest())
  {
    hide ParseSender, ReadU32, Reader.Rest;
    var n :- r.U32();
    if n > MAX_SENDERS {
      return Failure(InvalidSerialization);
    }
    var xs: seq<Sender> := [];
    ghost var all := ParseAll(ParseSender, n, r.Rest());
    assert all.Success? ==> [] + all.value.0 == all.value.0;
    for i := 0 to n
      invariant r.Valid() && all == Resume(xs, ParseAll(ParseSender, n - i, r.Rest()))
    {
      ResumeStep(ParseSender, n - i, xs, r.Rest());
      var x :- TakeSender(r);
      xs := xs + [x];
    }
    assert xs + [] == xs;
    v := Success(xs);
  }

  method TakeReceivers(r: Reader) returns (v: Result<seq<Receiver>, DecodeError>)
    requires r.Valid()
    modifies r
    ensures r.Valid() && Took(v, ParseCounted(ParseReceiver, MAX_RECEIVERS, old(r.Rest())), r.Rest())
  {
    hide ParseReceiver, ReadU32, Reader.Rest;
    var n :- r.U32();
    if n > MAX_RECEIVERS {
      return Failure(InvalidSerialization);
    }
    var xs: seq<Receiver> := [];
    ghost var all := ParseAll(ParseReceiver, n, r.Rest());
    assert all.Success? ==> [] + all.value.0 == all.value.0;
    for i := 0 to n
      invariant r.Valid() && all == Resume(xs, ParseAll(ParseReceiver, n - i, r.Rest()))
    {
      ResumeStep(ParseReceiver, n - i, xs, r.Rest());
      var x :- TakeReceiver(r);
      xs := xs + [x];
    }
    assert xs + [] == xs;
    v := Success(xs);
  }

  method TakeAddressReceivers(r: Reader) returns (v: Result<seq<AddressReceiver>, DecodeError>)
    requires r.Valid()
    modifies r
    ensures r.Valid() && Took(v, ParseCounted(ParseAddressReceiver, MAX_RECEIVERS, old(r.Rest())), r.Rest())
  {
    hide ParseAddressReceiver, ReadU32, Reader.Rest;
    var n :- r.U32();
    if n > MAX_RECEIVERS {
      return Failure(InvalidSerialization);
    }
    var xs: seq<AddressReceiver> := [];
    ghost var all := ParseAll(ParseAddressReceiver, n, r.Rest());
    assert all.Success? ==> [] + all.value.0 == all.value.0;
    for i := 0 to n
      invariant r.Valid() && all == Resume(xs, ParseAll(ParseAddressReceiver, n - i, r.Rest()))
    {
      ResumeStep(ParseAddressReceiver, n - i, xs, r.Rest());
      var x :- TakeAddressReceiver(r);
      xs := xs + [x];
    }
    assert xs + [] == xs;
    v := Success(xs);
  }

  method TakeChangers(r: Reader) returns (v: Result<seq<Changer>, DecodeError>)
    requires r.Valid()
    modifies r
    ensures r.Valid() && Took(v, ParseCounted(ParseChanger, MAX_CHANGERS, old(r.Rest())), r.Rest())
  {
    hide ParseChanger, ReadU32, Reader.Rest;
    var n :- r.U32();
    if n > MAX_CHANGERS {
      return Failure(InvalidSerialization);
    }
    var xs: seq<Changer> := [];
    ghost var all := ParseAll(ParseChanger, n, r.Rest());
    assert all.Success? ==> [] + all.value.0 == all.value.0;
    for i := 0 to n
      invariant r.Valid() && all == Resume(xs, ParseAll(ParseChanger, n - i, r.Rest()))
    {
      ResumeStep(ParseChanger, n - i, xs, r.Rest());
      var x :- TakeChanger(r);
      xs := xs + [x];
    }
    assert xs + [] == xs;
    v := Success(xs);
  }

  method TakeSigs(r: Reader) returns (v: Result<seq<Sig>, DecodeError>)
    requires r.Valid()
    modifies r
    ensures r.Valid() && Took(v, ParseCounted(ReadSig, MAX_SIGNATURES, old(r.Rest())), r.Rest())
  {
    hide ReadSig, ReadU32, Reader.Rest;
    var n :- r.U32();
    if n > MAX_SIGNATURES {
      return Failure(InvalidSerialization);
    }
    var xs: seq<Sig> := [];
    ghost var all := ParseAll(ReadSig, n, r.Rest());
    assert all.Success? ==> [] + all.value.0 == all.value.0;
    for i := 0 to n
      invariant r.Valid() && all == Resume(xs, ParseAll(ReadSig, n - i, r.Rest()))
    {
      ResumeStep(ReadSig, n - i, xs, r.Rest());
      var x :- TakeSig(r);
      xs := xs + [x];
    }
    assert xs + [] == xs;
    v := Success(xs);
  }

  method TakeLists(r: Reader) returns (v: Result<Lists, DecodeError>)
    requires r.Valid()
    modifies r
    ensures r.Valid() && Took(v, ParseLists(old(r.Rest())), r.Rest())
  {
    hide ParseCounted, Reader.Rest;
    var ss :- TakeSenders(r);
    var rs :- TakeReceivers(r);
    var cs :- TakeChangers(r);
    v := Success((ss, rs, cs));
  }

  method TakeAdmin(r: Reader) returns (v: Result<AdminOp, DecodeError>)
    requires r.Valid()
    modifies r
    ensures r.Valid() && Took(v, ParseAdmin(old(r.Rest())), r.Rest())
  {
    hide ReadU8, ReadU64, ReadKey, Reader.Rest;
    var t :- r.U8();
    if t == 0 {
      var k :- TakeKey(r);
      var h :- r.U64();
      return Success(Add(k, h));
    }
    if t > 3 {
      return Failure(UnknownValidatorAdminTag(t));
    }
    var id :- r.U64();
    var h :- r.U64();
    v := Success(if t == 1 then Remove(id, h) else if t == 2 then Activate(id, h) else Deactivate(id, h));
  }

  method TakeTrade(r: Reader, sale: bool) returns (v: Result<Payload, DecodeError>)
    requires r.Valid()
    modifies r
    ensures r.Valid() && Took(v, if sale then ParseSale(old(r.Rest())) else ParsePurchase(old(r.Rest())), r.Rest())
  {
    hide ReadU64, ReadKey, Reader.Rest;
    var a :- r.U64();
    var n :- r.U64();
    var b :- r.U64();
    var c :- r.U64();
    if sale {
      var k :- TakeKey(r);
      var locked :- r.U64();
      var fee :- r.U64();
      v := Success(ListAccountForSale(a, n, b, c, k, locked, fee));
    } else {
      var fee :- r.U64();
      var k :- TakeKey(r);
      var seller :- r.U64();
      v := Success(BuyAccount(a, n, b, c, fee, k, seller));
    }
  }

  method TakeInfo(r: Reader) returns (v: Result<Payload, DecodeError>)
    requires r.Valid()
    modifies r
    ensures r.Valid() && Took(v, ParseInfo(old(r.Rest())), r.Rest())
  {
    hide ReadU16, ReadU64, ReadKey, ReadName16, ReadBytes16, Reader.Rest;
    var a :- r.U64();
    var n :- r.U64();
    var fee :- r.U64();
    var k :- TakeKey(r);
    var name :- TakeName16(r);
    var typ :- r.U16();
    var data :- TakeBytes16(r);
    var seal :- TakeBytes16(r);
    v := Success(ChangeAccountInfo(a, n, fee, k, name, typ, data, seal));
  }

  method TakeSmall(r: Reader, tag: byte) returns (v: Result<Payload, DecodeError>)
    requires r.Valid()
    modifies r
    ensures r.Valid() && Took(v, ParseSmall(tag, old(r.Rest())), r.Rest())
  {
    hide ReadU8, ReadU64, ReadKey, ReadSig, ReadBytes16, Reader.Rest;
    var a :- r.U64();
    if tag == 0x03 {
      return Success(RecoverFounds(a));
    }
    if tag == 0x0C {
      var k :- TakeKey(r);
      var metadata :- TakeBytes16(r);
      return Success(CreateAccount(a, k, metadata));
    }
    var n :- r.U64();
    if tag == 0x0D {
      var k :- TakeKey(r);
      var fee :- r.U64();
      return Success(GiftAccount(a, n, k, fee));
    }
    var fee :- r.U64();
    if tag == 0x02 {
      var k :- TakeKey(r);
      v := Success(ChangeKey(a, n, fee, k));
    } else if tag == 0x05 {
      v := Success(DelistAccount(a, n, fee));
    } else if tag == 0x07 {
      var k :- TakeKey(r);
      var sig :- TakeSig(r);
      v := Success(ChangeKeySigned(a, n, fee, k, sig));
    } else if tag == 0x0E {
      v := Success(AcceptGift(a, n, fee));
    } else {
      var t :- r.U8();
      var data :- TakeBytes16(r);
      v := Success(Contract(a, n, fee, t, data));
    }
  }

  method TakePayload(r: Reader) returns (v: Result<Payload, DecodeError>)
    requires r.Valid()
    modifies r
    ensures r.Valid() && Took(v, ParsePayload(old(r.Rest())), r.Rest())
  {
    hide ReadU8, ReadU64, ReadBytes16, ParseCounted, ParseLists, ParseSale, ParsePurchase, ParseInfo, ParseAdmin, ParseSmall, Reader.Rest;
    var tag :- r.U8();
    if tag == 0x01 || tag == 0x09 {
      var l :- TakeLists(r);
      var fee :- r.U64();
      v := Success(if tag == 0x09 then MultiOperation(l.0, l.1, l.2, fee) else Transaction(l.0, l.1, l.2, fee));
    } else if tag == 0x0F {
      var ss :- TakeSenders(r);
      var rs :- TakeAddressReceivers(r);
      var fee :- r.U64();
      v := Success(AddressTransaction(ss, rs, fee));
    } else if tag == 0x04 || tag == 0x06 {
      v := TakeTrade(r, tag == 0x04);
    } else if tag == 0x08 {
      v := TakeInfo(r);
    } else if tag == 0x0A {
      var a :- r.U64();
      var n :- r.U64();
      var fee :- r.U64();
      var data :- TakeBytes16(r);
      var l :- TakeLists(r);
      v := Success(Data(a, n, fee, data, l.0, l.1, l.2));
    } else if tag == 0x0B {
      var a :- TakeAdmin(r);
      v := Success(ValidatorAdmin(a));
    } else if tag in {0x02, 0x03, 0x05, 0x07, 0x0C, 0x0D, 0x0E, 0x10} {
      v := TakeSmall(r, tag);
    } else {
      v := Failure(UnknownOperationType(tag));
    }
  }

  /** The whole decoder: payload, chain id, signatures; bytes behind them are not looked at. */
  method FromBytes(data: Bytes) returns (v: Result<Operation, DecodeError>)
    ensures v == Decode(data)
  {
    hide ParsePayload, ReadU64, ParseCounted, Reader.Rest;
    var r := new Reader(data);
    var p :- TakePayload(r);
    var chain :- r.U64();
    var sigs :- TakeSigs(r);
    v := Success(Operation(TypeOf(p), p, chain, sigs));
  }

  // ---- Writing: `rest` is what will be written next ----

  method WriteSender(w: Writer, x: Sender, ghost rest: Bytes)
    modifies w
    ensures w.buf + rest == old(w.buf) + PutSender(x, rest)
  {
    hide U16, U64, Bytes16, Name16, FixedKey, FixedSig, FixedAddress;
    w.Put(U64(x.account));
    w.Put(U64(x.nOperation));
    w.Put(U64(x.amount));
    w.Put(Bytes16(x.payload));
    Assoc();
  }

  method WriteSenders(w: Writer, xs: seq<Sender>, ghost rest: Bytes)
    modifies w
    ensures w.buf + rest == old(w.buf) + PutCounted(PutSender, xs, rest)
  {
    hide PutSender, U32;
    w.Put(U32(|xs| % 0x1_0000_0000));
    Assoc();
    for i := 0 to |xs|
      invariant w.buf + PutAll(PutSender, xs[i..], rest) == old(w.buf) + PutCounted(PutSender, xs, rest)
    {
      assert xs[i..][1..] == xs[i + 1..];
      WriteSender(w, xs[i], PutAll(PutSender, xs[i + 1..], rest));
    }
  }

  method WriteReceiver(w: Writer, x: Receiver, ghost rest: Bytes)
    modifies w
    ensures w.buf + rest == old(w.buf) + PutReceiver(x, rest)
  {
    hide U16, U64, Bytes16, Name16, FixedKey, FixedSig, FixedAddress;
    w.Put(U64(x.account));
    w.Put(U64(x.amount));
    w.Put(Bytes16(x.payload));
    Assoc();
  }

  method WriteReceivers(w: Writer, xs: seq<Receiver>, ghost rest: Bytes)
    modifies w
    ensures w.buf + rest == old(w.buf) + PutCounted(PutReceiver, xs, rest)
  {
    hide PutReceiver, U32;
    w.Put(U32(|xs| % 0x1_0000_0000));
    Assoc();
    for i := 0 to |xs|
      invariant w.buf + PutAll(PutReceiver, xs[i..], rest) == old(w.buf) + PutCounted(PutReceiver, xs, rest)
    {
      assert xs[i..][1..] == xs[i + 1..];
      WriteReceiver(w, xs[i], PutAll(PutReceiver, xs[i + 1..], rest));
    }
  }

  method WriteAddress(w: Writer, x: AddressReceiver, ghost tail: Bytes)
    modifies w
    ensures w.buf + tail == old(w.buf) +
            (FixedAddress(x.hash) + (match x.publicKey case Some(k) => [1] + (FixedKey(k) + tail) case None => [0] + tail))
  {
    hide FixedKey, FixedAddress;
    w.Put(FixedAddress(x.hash));
    match x.publicKey {
      case Some(k) =>
        w.Put([1]);
        w.Put(FixedKey(k));
      case None =>
        w.Put([0]);
    }
    Assoc();
  }

  method WriteAddressReceiver(w: Writer, x: AddressReceiver, ghost rest: Bytes)
    modifies w
    ensures w.buf + rest == old(w.buf) + PutAddressReceiver(x, rest)
  {
    hide U64, Bytes16, FixedKey, FixedAddress;
    WriteAddress(w, x, U64(x.amount) + (Bytes16(x.payload) + rest));
    w.Put(U64(x.amount));
    w.Put(Bytes16(x.payload));
    Assoc();
  }

  method WriteAddressReceivers(w: Writer, xs: seq<AddressReceiver>, ghost rest: Bytes)
    modifies w
    ensures w.buf + rest == old(w.buf) + PutCounted(PutAddressReceiver, xs, rest)
  {
    hide PutAddressReceiver, U32;
    w.Put(U32(|xs| % 0x1_0000_0000));
    Assoc();
    for i := 0 to |xs|
      invariant w.buf + PutAll(PutAddressReceiver, xs[i..], rest) == old(w.buf) + PutCounted(PutAddressReceiver, xs, rest)
    {
      assert xs[i..][1..] == xs[i + 1..];
      WriteAddressReceiver(w, xs[i], PutAll(PutAddressReceiver, xs[i + 1..], rest));
    }
  }

  method WriteChanger(w: Writer, x: Changer, ghost rest: Bytes)
    modifies w
    ensures w.buf + rest == old(w.buf) + PutChanger(x, rest)
  {
    hide U16, U64, Bytes16, Name16, FixedKey, FixedSig, FixedAddress;
    ghost var tail := U16(x.newType) + (Bytes16(x.newData) + (Bytes16(x.newSeal) + (U64(x.fee) + rest)));
    w.Put(U64(x.account));
    w.Put(U64(x.nOperation));
    w.Put(FixedKey(x.newKey));
    w.Put(Name16(x.newName));
    assert w.buf + tail == old(w.buf) + PutChanger(x, rest) by { Assoc(); }
    WriteChange(w, x, rest);
  }

  method WriteChange(w: Writer, x: Changer, ghost rest: Bytes)
    modifies w
    ensures w.buf + rest == old(w.buf) + (U16(x.newType) + (Bytes16(x.newData) + (Bytes16(x.newSeal) + (U64(x.fee) + rest))))
  {
    hide U16, U64, Bytes16;
    w.Put(U16(x.newType));
    w.Put(Bytes16(x.newData));
    w.Put(Bytes16(x.newSeal));
    w.Put(U64(x.fee));
    Assoc();
  }

  method WriteChangers(w: Writer, xs: seq<Changer>, ghost rest: Bytes)
    modifies w
    ensures w.buf + rest == old(w.buf) + PutCounted(PutChanger, xs, rest)
  {
    hide PutChanger, U32;
    w.Put(U32(|xs| % 0x1_0000_0000));
    Assoc();
    for i := 0 to |xs|
      invariant w.buf + PutAll(PutChanger, xs[i..], rest) == old(w.buf) + PutCounted(PutChanger, xs, rest)
    {
      assert xs[i..][1..] == xs[i + 1..];
      WriteChanger(w, xs[i], PutAll(PutChanger, xs[i + 1..], rest));
    }
  }

  method WriteSig(w: Writer, x: Sig, ghost rest: Bytes)
    modifies w
    ensures w.buf + rest == old(w.buf) + PutSig(x, rest)
  {
    hide U16, U64, Bytes16, Name16, FixedKey, FixedSig, FixedAddress;
    w.Put(FixedSig(x));
    Assoc();
  }

  method WriteSigs(w: Writer, xs: seq<Sig>, ghost rest: Bytes)
    modifies w
    ensures w.buf + rest == old(w.buf) + PutCounted(PutSig, xs, rest)
  {
    hide PutSig, U32;
    w.Put(U32(|xs| % 0x1_0000_0000));
    Assoc();
    for i := 0 to |xs|
      invariant w.buf + PutAll(PutSig, xs[i..], rest) == old(w.buf) + PutCounted(PutSig, xs, rest)
    {
      assert xs[i..][1..] == xs[i + 1..];
      WriteSig(w, xs[i], PutAll(PutSig, xs[i + 1..], rest));
    }
  }

  method WriteLists(w: Writer, ss: seq<Sender>, rs: seq<Receiver>, cs: seq<Changer>, ghost rest: Bytes)
    modifies w
    ensures w.buf + rest == old(w.buf) + PutLists(ss, rs, cs, rest)
  {
    hide PutCounted;
    WriteSenders(w, ss, PutCounted(PutReceiver, rs, PutCounted(PutChanger, cs, rest)));
    WriteReceivers(w, rs, PutCounted(PutChanger, cs, rest));
    WriteChangers(w, cs, rest);
  }

  method WriteAdmin(w: Writer, a: AdminOp, ghost rest: Bytes)
    modifies w
    ensures w.buf + rest == old(w.buf) + PutAdmin(a, rest)
  {
    hide U64, FixedKey;
    match a {
      case Add(k, h) => WriteTagged(w, 0, FixedKey(k), h, rest);
      case Remove(v, h) => WriteTagged(w, 1, U64(v), h, rest);
      case Activate(v, h) => WriteTagged(w, 2, U64(v), h, rest);
      case Deactivate(v, h) => WriteTagged(w, 3, U64(v), h, rest);
    }
  }

  method WriteTagged(w: Writer, tag: byte, who: Bytes, h: u64, ghost rest: Bytes)
    modifies w
    ensures w.buf + rest == old(w.buf) + ([tag] + (who + (U64(h) + rest)))
  {
    hide U64;
    w.Put([tag]);
    w.Put(who);
    w.Put(U64(h));
    Assoc();
  }

  method WriteThree(w: Writer, a: u64, b: u64, c: u64, ghost rest: Bytes)
    modifies w
    ensures w.buf + rest == old(w.buf) + (U64(a) + (U64(b) + (U64(c) + rest)))
  {
    hide U64;
    w.Put(U64(a));
    w.Put(U64(b));
    w.Put(U64(c));
    Assoc();
  }

  method WriteTrade(w: Writer, p: Payload, ghost rest: Bytes)
    requires p.ListAccountForSale? || p.BuyAccount?
    modifies w
    ensures w.buf + rest == old(w.buf) + PutBody(p, rest)
  {
    hide U16, U64, Bytes16, Name16, FixedKey, FixedSig, PutLists, PutCounted, PutAdmin;
    match p {
      case ListAccountForSale(a, n, price, pay, k, locked, fee) =>
        WriteThree(w, a, n, price, U64(pay) + (FixedKey(k) + (U64(locked) + (U64(fee) + rest))));
        w.Put(U64(pay));
        w.Put(FixedKey(k));
        w.Put(U64(locked));
        w.Put(U64(fee));
      case BuyAccount(b, n, a, amount, fee, k, seller) =>
        WriteThree(w, b, n, a, U64(amount) + (U64(fee) + (FixedKey(k) + (U64(seller) + rest))));
        w.Put(U64(amount));
        w.Put(U64(fee));
        w.Put(FixedKey(k));
        w.Put(U64(seller));
    }
    Assoc();
  }

  method WriteKeyed(w: Writer, p: Payload, ghost rest: Bytes)
    requires p.ChangeKey? || p.ChangeKeySigned? || p.CreateAccount? || p.GiftAccount?
    modifies w
    ensures w.buf + rest == old(w.buf) + PutBody(p, rest)
  {
    hide U16, U64, Bytes16, Name16, FixedKey, FixedSig, PutLists, PutCounted, PutAdmin;
    match p {
      case ChangeKey(a, n, fee, k) =>
        WriteThree(w, a, n, fee, FixedKey(k) + rest);
        w.Put(FixedKey(k));
      case ChangeKeySigned(a, n, fee, k, sig) =>
        WriteThree(w, a, n, fee, FixedKey(k) + (FixedSig(sig) + rest));
        w.Put(FixedKey(k));
        w.Put(FixedSig(sig));
      case CreateAccount(a, k, metadata) =>
        w.Put(U64(a));
        w.Put(FixedKey(k));
        w.Put(Bytes16(metadata));
      case GiftAccount(a, n, k, fee) =>
        w.Put(U64(a));
        w.Put(U64(n));
        w.Put(FixedKey(k));
        w.Put(U64(fee));
    }
    Assoc();
  }

  method WriteInfo(w: Writer, p: Payload, ghost rest: Bytes)
    requires p.ChangeAccountInfo?
    modifies w
    ensures w.buf + rest == old(w.buf) + PutBody(p, rest)
  {
    hide U16, U64, Bytes16, Name16, FixedKey, FixedSig, PutLists, PutCounted, PutAdmin;
    match p {
      case ChangeAccountInfo(a, n, fee, k, name, typ, data, seal) =>
        WriteThree(w, a, n, fee, FixedKey(k) + (Name16(name) + (U16(typ) + (Bytes16(data) + (Bytes16(seal) + rest)))));
        w.Put(FixedKey(k));
        w.Put(Name16(name));
        w.Put(U16(typ));
        w.Put(Bytes16(data));
        w.Put(Bytes16(seal));
    }
    Assoc();
  }

  method WritePlain(w: Writer, p: Payload, ghost rest: Bytes)
    requires p.RecoverFounds? || p.DelistAccount? || p.AcceptGift? || p.Contract?
    modifies w
    ensures w.buf + rest == old(w.buf) + PutBody(p, rest)
  {
    hide U16, U64, Bytes16, Name16, FixedKey, FixedSig, PutLists, PutCounted, PutAdmin;
    match p {
      case RecoverFounds(a) =>
        w.Put(U64(a));
      case DelistAccount(a, n, fee) =>
        WriteThree(w, a, n, fee, rest);
      case AcceptGift(a, n, fee) =>
        WriteThree(w, a, n, fee, rest);
      case Contract(a, n, fee, t, data) =>
        WriteThree(w, a, n, fee, [t] + (Bytes16(data) + rest));
        w.Put([t]);
        w.Put(Bytes16(data));
    }
    Assoc();
  }

  method WriteBody(w: Writer, p: Payload, ghost rest: Bytes)
    modifies w
    ensures w.buf + rest == old(w.buf) + PutBody(p, rest)
  {
    hide U64, Bytes16, PutLists, PutCounted, PutAdmin;
    if p.Transaction? || p.MultiOperation? {
      WriteLists(w, p.senders, p.receivers, p.changers, U64(p.fee) + rest);
      Assoc();
      w.Put(U64(p.fee));
    } else if p.AddressTransaction? {
      WriteSenders(w, p.senders, PutCounted(PutAddressReceiver, p.addressReceivers, U64(p.fee) + rest));
      WriteAddressReceivers(w, p.addressReceivers, U64(p.fee) + rest);
      Assoc();
      w.Put(U64(p.fee));
    } else if p.Data? {
      w.Put(U64(p.account));
      w.Put(U64(p.nOperation));
      w.Put(U64(p.fee));
      w.Put(Bytes16(p.data));
      Assoc();
      WriteLists(w, p.senders, p.receivers, p.changers, rest);
    } else if p.ValidatorAdmin? {
      WriteAdmin(w, p.admin, rest);
    } else if p.ListAccountForSale? || p.BuyAccount? {
      WriteTrade(w, p, rest);
    } else if p.ChangeKey? || p.ChangeKeySigned? || p.CreateAccount? || p.GiftAccount? {
      WriteKeyed(w, p, rest);
    } else if p.ChangeAccountInfo? {
      WriteInfo(w, p, rest);
    } else {
      WritePlain(w, p, rest);
    }
  }

  method WriteOperation(w: Writer, op: Operation, ghost rest: Bytes)
    modifies w
    ensures w.buf + rest == old(w.buf) + PutOperation(op, rest)
  {
    hide PutBody, U64, PutCounted;
    ghost var sigs := PutCounted(PutSig, op.signatures, rest);
    w.Put([TypeOf(op.payload)]);
    WriteBody(w, op.payload, U64(op.chainId) + sigs);
    Assoc();
    w.Put(U64(op.chainId));
    WriteSigs(w, op.signatures, rest);
  }

  /** The encoder: type tag, body, chain id, signatures, each appended behind the last. */
  method ToBytes(op: Operation) returns (bs: Bytes)
    ensures bs == Encode(op)
  {
    hide PutOperation;
    var w := new Writer();
    WriteOperation(w, op, []);
    bs := w.buf;
    assert bs + [] == bs;
    assert [] + PutOperation(op, []) == PutOperation(op, []);
  }
}
