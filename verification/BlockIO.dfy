/** Reading, writing and hashing blocks and proposals, loop by loop. */
module BlockIO {
  import opened Bytes
  import opened Codec
  import opened Hashing
  import opened Operations
  import opened PayloadCodec
  import opened OperationIO
  import opened Blocks
  import opened Merkle
  import opened Proposal

  // ---- Headers ----

  method TakeNumbers(r: Reader) returns (v: Result<Numbers, DecodeError>)
    requires r.Valid()
    modifies r
    ensures r.Valid() && Took(v, ParseNumbers(old(r.Rest())), r.Rest())
  {
    hide ReadU16, ReadU64, ReadKey, Reader.Rest;
    var number :- r.U64();
    var account :- TakeKey(r);
    var reward :- r.U64();
    var fee :- r.U64();
    var version :- r.U16();
    var available :- r.U16();
    var time :- r.U64();
    v := Success((number, account, reward, fee, version, available, time));
  }

  method TakeProofs(r: Reader) returns (v: Result<Proofs, DecodeError>)
    requires r.Valid()
    modifies r
    ensures r.Valid() && Took(v, ParseProofs(old(r.Rest())), r.Rest())
  {
    hide ReadU64, ReadBytes16, ReadKey, ReadSig, Reader.Rest;
    var safeBox :- TakeSig(r);
    var operations :- TakeSig(r);
    var payload :- TakeBytes16(r);
    var pow :- TakeKey(r);
    var previous :- TakeKey(r);
    var leader :- r.U64();
    v := Success((safeBox, operations, payload, pow, previous, leader));
  }

  method HeaderFromBytes(data: Bytes) returns (v: Result<Header, DecodeError>)
    ensures v == Value(ParseHeader(data))
  {
    hide ParseNumbers, ParseProofs, ReadU64, Reader.Rest;
    var r := new Reader(data);
    var n :- TakeNumbers(r);
    var p :- TakeProofs(r);
    var chain := r.U64();
    v := Success(Header(n.0, n.1, n.2, n.3, n.4, n.5, n.6, p.0, p.1, p.2, p.3, p.4, p.5,
                        if chain.Success? then chain.value else 1));
  }

  method WriteNumbers(w: Writer, h: Header, ghost rest: Bytes)
    modifies w
    ensures w.buf + rest == old(w.buf) + PutNumbers(h, rest)
  {
    hide U16, U64, FixedKey;
    w.Put(U64(h.blockNumber));
    w.Put(FixedKey(h.accountKey));
    w.Put(U64(h.reward));
    w.Put(U64(h.fee));
    w.Put(U16(h.protocolVersion));
    w.Put(U16(h.protocolAvailable));
    w.Put(U64(h.timestamp));
    Assoc();
  }

  method WriteProofs(w: Writer, h: Header, ghost rest: Bytes)
    modifies w
    ensures w.buf + rest == old(w.buf) + PutProofs(h, rest)
  {
    hide U16, U64, Bytes16, FixedKey, FixedSig;
    w.Put(FixedSig(h.initialSafeBoxHash));
    w.Put(FixedSig(h.operationsHash));
    w.Put(Bytes16(h.blockPayload));
    w.Put(FixedKey(h.proofOfWork));
    w.Put(FixedKey(h.previousProofOfWork));
    w.Put(U64(h.leaderId));
    Assoc();
  }

  method HeaderToBytes(h: Header) returns (bs: Bytes)
    ensures bs == EncodeHeader(h)
  {
    hide U64, PutNumbers, PutProofs;
    var w := new Writer();
    var chain := U64(h.chainId);
    WriteNumbers(w, h, PutProofs(h, chain));
    assert w.buf + PutProofs(h, chain) == PutNumbers(h, PutProofs(h, chain));
    WriteProofs(w, h, chain);
    w.Put(chain);
    assert chain + [] == chain;
    bs := w.buf;
  }

  // ---- Blocks ----

  method TakeFramed(r: Reader) returns (v: Result<Operation, DecodeError>)
    requires r.Valid()
    modifies r
    ensures r.Valid() && Took(v, ParseFramed(old(r.Rest())), r.Rest())
  {
    hide ReadU32, ReadFixed, Decode, Reader.Rest;
    var n :- r.U32();
    var b :- r.Fixed(n);
    var op := FromBytes(b);
    v := if op.Success? then op else Failure(InvalidSerialization);
  }

  method TakeOperations(r: Reader) returns (v: Result<seq<Operation>, DecodeError>)
    requires r.Valid()
    modifies r
    ensures r.Valid() && Took(v, ParseCounted(ParseFramed, MAX_BLOCK_OPERATIONS, old(r.Rest())), r.Rest())
  {
    hide ParseFramed, ReadU32, Reader.Rest;
    var n :- r.U32();
    if n > MAX_BLOCK_OPERATIONS {
      return Failure(InvalidSerialization);
    }
    var xs: seq<Operation> := [];
    ghost var all := ParseAll(ParseFramed, n, r.Rest());
    assert all.Success? ==> [] + all.value.0 == all.value.0;
    for i := 0 to n
      invariant r.Valid() && all == Resume(xs, ParseAll(ParseFramed, n - i, r.Rest()))
    {
      ResumeStep(ParseFramed, n - i, xs, r.Rest());
      var x :- TakeFramed(r);
      xs := xs + [x];
    }
    assert xs + [] == xs;
    v := Success(xs);
  }

  method TakeQuorum(r: Reader) returns (v: Result<seq<Sig>, DecodeError>)
    requires r.Valid()
    modifies r
    ensures r.Valid() && Took(v, ParseCounted(ReadSig, MAX_QUORUM_SIGNATURES, old(r.Rest())), r.Rest())
  {
    hide ReadSig, ReadU32, Reader.Rest;
    var n :- r.U32();
    if n > MAX_QUORUM_SIGNATURES {
      return Failure(InvalidSerialization);
    }
    var xs: seq<Sig> := [];
    ghost var all := ParseAll(ReadSig, n, r.Rest());
    assert all.Success? ==> [] + all.value.0 == all.value.0;
    for i := 0 to n
      invariant r.Valid() && all == Resume(xs, ParseAll(ReadSig, n - i, r.Rest()))
    {
      ResumeStep(ReadSig, n - i, xs, r.Rest());
      var x :- TakeSig(r);
      xs := xs + [x];
    }
    assert xs + [] == xs;
    v := Success(xs);
  }

  method BlockFromBytes(H: Digest, data: Bytes) returns (v: Result<Block, DecodeError>)
    ensures v == DecodeBlock(H, data)
  {
    hide ParseHeader, EncodeHeader, ReadFixed, ParseCounted, ReadSig, Reader.Rest;
    var h :- HeaderFromBytes(data);
    var hb := HeaderToBytes(h);
    var r := new Reader(data);
    var _ :- r.Fixed(|hb|);
    var ops :- TakeOperations(r);
    var leader :- TakeSig(r);
    var quorum :- TakeQuorum(r);
    v := Success(Block(h, ops, leader, quorum, H(hb)));
  }

  method WriteOperations(w: Writer, xs: seq<Operation>, ghost rest: Bytes)
    modifies w
    ensures w.buf + rest == old(w.buf) + PutCounted(PutFramed, xs, rest)
  {
    hide Encode, U32;
    w.Put(U32(|xs| % 0x1_0000_0000));
    Assoc();
    for i := 0 to |xs|
      invariant w.buf + PutAll(PutFramed, xs[i..], rest) == old(w.buf) + PutCounted(PutFramed, xs, rest)
    {
      var bs := ToBytes(xs[i]);
      assert xs[i..][1..] == xs[i + 1..];
      w.Put(U32(|bs| % 0x1_0000_0000));
      w.Put(bs);
    }
  }

  method BlockToBytes(b: Block) returns (bs: Bytes)
    ensures bs == EncodeBlock(b)
  {
    hide PutHeader, PutTail;
    var hb := HeaderToBytes(b.header);
    HeaderLength(b.header, PutTail(b, []));
    var w := new Writer();
    w.Put(hb);
    WriteTail(w, b);
    bs := w.buf;
    assert [] + hb == hb;
  }

  method WriteTail(w: Writer, b: Block)
    modifies w
    ensures w.buf == old(w.buf) + PutTail(b, [])
  {
    hide PutCounted, FixedSig, PutFramed, PutSig;
    ghost var sigs := PutCounted(PutSig, b.quorumSignatures, []);
    WriteOperations(w, b.operations, FixedSig(b.leaderSignature) + sigs);
    ghost var before := w.buf;
    w.Put(FixedSig(b.leaderSignature));
    assert w.buf + sigs == before + (FixedSig(b.leaderSignature) + sigs);
    WriteSigs(w, b.quorumSignatures, []);
    assert w.buf + [] == w.buf;
  }

  /** The block's own copy of the Merkle loop. */
  method ComputeOperationsMerkleRoot(H: Digest, ops: seq<Operation>) returns (root: Hash)
    ensures root == MerkleOf(H, ops)
  {
    hide Encode;
    if ops == [] {
      return Zero();
    }
    var hashes: seq<Hash> := [];
    for i := 0 to |ops|
      invariant hashes == OpHashes(H, ops[..i])
    {
      var bs := ToBytes(ops[i]);
      hashes := hashes + [H(bs)];
    }
    assert ops[..|ops|] == ops;
    while |hashes| > 1
      invariant hashes != [] && Root(H, hashes) == MerkleOf(H, ops)
      decreases |hashes|
    {
      hashes := NextLevel(H, hashes);
    }
    root := hashes[0];
  }

  // ---- Proposals ----

  method TakeHashes(r: Reader) returns (v: Result<seq<Hash>, DecodeError>)
    requires r.Valid()
    modifies r
    ensures r.Valid() && Took(v, ParseCounted(ReadHash, MAX_BLOCK_OPERATIONS, old(r.Rest())), r.Rest())
  {
    hide ReadSig, ReadU32, Reader.Rest;
    var n :- r.U32();
    if n > MAX_BLOCK_OPERATIONS {
      return Failure(InvalidSerialization);
    }
    var xs: seq<Hash> := [];
    ghost var all := ParseAll(ReadHash, n, r.Rest());
    assert all.Success? ==> [] + all.value.0 == all.value.0;
    for i := 0 to n
      invariant r.Valid() && all == Resume(xs, ParseAll(ReadHash, n - i, r.Rest()))
    {
      ResumeStep(ReadHash, n - i, xs, r.Rest());
      var x :- TakeSig(r);
      xs := xs + [x];
    }
    assert xs + [] == xs;
    v := Success(xs);
  }

  method ProposalFromBytes(data: Bytes) returns (v: Result<ProposalMessage, DecodeError>)
    ensures v == DecodeProposal(data)
  {
    hide ParseHeader, ReadU32, ReadFixed, ParseCounted, ReadSig, Reader.Rest;
    var r := new Reader(data);
    var n :- r.U32();
    var hb :- r.Fixed(n);
    var h :- HeaderFromBytes(hb);
    var root :- TakeSig(r);
    var hashes :- TakeHashes(r);
    var sig :- TakeSig(r);
    v := Success(ProposalMessage(h, root, hashes, sig));
  }

  method ProposalToBytes(p: ProposalMessage) returns (bs: Bytes)
    ensures bs == EncodeProposal(p)
  {
    hide EncodeHeader, FixedSig, U32;
    var hb := HeaderToBytes(p.header);
    var w := new Writer();
    w.Put(U32(|hb| % 0x1_0000_0000));
    w.Put(hb);
    w.Put(FixedSig(p.merkleRoot));
    w.Put(U32(|p.txHashes| % 0x1_0000_0000));
    Assoc();
    ghost var tail := PutSig(p.leaderSignature, []);
    for i := 0 to |p.txHashes|
      invariant w.buf + PutAll(PutHash, p.txHashes[i..], tail) == EncodeProposal(p)
    {
      assert p.txHashes[i..][1..] == p.txHashes[i + 1..];
      w.Put(FixedSig(p.txHashes[i]));
    }
    w.Put(FixedSig(p.leaderSignature));
    bs := w.buf;
    assert bs + [] == bs;
  }
}
