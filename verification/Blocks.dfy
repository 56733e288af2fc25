/** Block headers and blocks: wire format, exact size, and the size-bounded builder. */
module Blocks {
  import opened Bytes
  import opened Codec
  import opened Hashing
  import opened Operations
  import opened PayloadCodec

  const MAX_BLOCK_OPERATIONS := 25000
  const MAX_QUORUM_SIGNATURES := 100

  datatype Header = Header(
    blockNumber: u64, accountKey: Key, reward: u64, fee: u64, protocolVersion: u16, protocolAvailable: u16,
    timestamp: u64, initialSafeBoxHash: Hash, operationsHash: Hash, blockPayload: Bytes,
    proofOfWork: Key, previousProofOfWork: Key, leaderId: u64, chainId: u64)

  datatype Block = Block(
    header: Header, operations: seq<Operation>, leaderSignature: Sig, quorumSignatures: seq<Sig>, blockHash: Hash)

  predicate HeaderOk(h: Header) { Fits16(h.blockPayload) }

  /** What the decoder can give back: counts and lengths in range, and the stored hash is the header's. */
  predicate BlockOk(H: Digest, b: Block) {
    && HeaderOk(b.header)
    && |b.operations| <= 25_000 && (forall op | op in b.operations :: OperationOk(op))
    && |b.quorumSignatures| <= 100
    && b.blockHash == HeaderHash(H, b.header)
  }

  /** The identifier of an operation: the digest of its encoding. */
  function OpHash(H: Digest, op: Operation): Hash { H(Encode(op)) }

  function OpHashes(H: Digest, ops: seq<Operation>): (r: seq<Hash>)
    ensures |r| == |ops| && forall i | 0 <= i < |ops| :: r[i] == OpHash(H, ops[i])
  {
    seq(|ops|, i requires 0 <= i < |ops| => OpHash(H, ops[i]))
  }

  /** Equal identifiers mean equal operations, unless two encodings collide. */
  lemma OpHashBinds(H: Digest, a: Operation, b: Operation)
    requires OperationOk(a) && OperationOk(b) && OpHash(H, a) == OpHash(H, b)
    ensures a == b || Collision(H, Encode(a), Encode(b))
  {
    hide Encode, OperationOk;
    if Encode(a) == Encode(b) {
      EncodeInjective(a, b);
    }
  }

  // ---- Headers ----

  function PutNumbers(h: Header, r: Bytes): Bytes {
    U64(h.blockNumber) + (FixedKey(h.accountKey) + (U64(h.reward) + (U64(h.fee) + (U16(h.protocolVersion) + (U16(h.protocolAvailable)
      + (U64(h.timestamp) + r))))))
  }

  function PutProofs(h: Header, r: Bytes): Bytes {
    FixedSig(h.initialSafeBoxHash) + (FixedSig(h.operationsHash) + (Bytes16(h.blockPayload)
      + (FixedKey(h.proofOfWork) + (FixedKey(h.previousProofOfWork) + (U64(h.leaderId) + r)))))
  }

  /** Everything before the chain id. */
  function PutHead(h: Header, r: Bytes): Bytes { PutNumbers(h, PutProofs(h, r)) }

  function PutHeader(h: Header, r: Bytes): Bytes { PutHead(h, U64(h.chainId) + r) }

  function EncodeHeader(h: Header): Bytes { PutHeader(h, []) }

  function HeaderHash(H: Digest, h: Header): Hash { H(EncodeHeader(h)) }

  type Numbers = (u64, Key, u64, u64, u16, u16, u64)
  type Proofs = (Hash, Hash, Bytes, Key, Key, u64)

  function ParseNumbers(s: Bytes): Parsed<Numbers> {
    var (number, s) :- ReadU64(s);
    var (account, s) :- ReadKey(s);
    var (reward, s) :- ReadU64(s);
    var (fee, s) :- ReadU64(s);
    var (version, s) :- ReadU16(s);
    var (available, s) :- ReadU16(s);
    var (time, s) :- ReadU64(s);
    Success(((number, account, reward, fee, version, available, time), s))
  }

  function ParseProofs(s: Bytes): Parsed<Proofs> {
    var (safeBox, s) :- ReadSig(s);
    var (operations, s) :- ReadSig(s);
    var (payload, s) :- ReadBytes16(s);
    var (pow, s) :- ReadKey(s);
    var (previous, s) :- ReadKey(s);
    var (leader, s) :- ReadU64(s);
    Success(((safeBox, operations, payload, pow, previous, leader), s))
  }

  /** A missing chain id reads as 1, without consuming anything. */
  function ParseHeader(s: Bytes): Parsed<Header> {
    var (n, s) :- ParseNumbers(s);
    var (p, s) :- ParseProofs(s);
    var chain := ReadU64(s);
    Success((Header(n.0, n.1, n.2, n.3, n.4, n.5, n.6, p.0, p.1, p.2, p.3, p.4, p.5, if chain.Success? then chain.value.0 else 1),
             Left(chain, s)))
  }

  lemma HeadReads(h: Header, r: Bytes)
    requires HeaderOk(h)
    ensures ParseHeader(PutHead(h, r))
         == Success((h.(chainId := if ReadU64(r).Success? then ReadU64(r).value.0 else 1), Left(ReadU64(r), r)))
  {
    hide ReadU16, ReadU64, ReadBytes16, ReadKey, ReadSig, U16, U64, Bytes16, FixedKey, FixedSig, Fits16;
    Reads();
    Fields();
  }

  lemma HeaderRoundTrip(h: Header, r: Bytes)
    requires HeaderOk(h)
    ensures ParseHeader(PutHeader(h, r)) == Success((h, r))
  {
    hide PutHead, ParseHeader, ReadU64, U64;
    Reads();
    HeadReads(h, U64(h.chainId) + r);
  }

  /** A header written before chain ids existed decodes as a mainnet header. */
  lemma LegacyHeader(h: Header, r: Bytes)
    requires HeaderOk(h) && |r| < 8
    ensures ParseHeader(PutHead(h, r)) == Success((h.(chainId := 1), r))
  {
    hide PutHead, ParseHeader;
    HeadReads(h, r);
  }

  lemma HeaderInjective(g: Header, h: Header)
    requires HeaderOk(g) && HeaderOk(h) && EncodeHeader(g) == EncodeHeader(h)
    ensures g == h
  {
    hide PutHeader, ParseHeader;
    HeaderRoundTrip(g, []);
    HeaderRoundTrip(h, []);
  }

  /** The header's digest binds every field of it: two well-formed headers with one digest are equal, or their encodings collide. */
  lemma HeaderHashBinds(H: Digest, g: Header, h: Header)
    requires HeaderOk(g) && HeaderOk(h) && HeaderHash(H, g) == HeaderHash(H, h)
    ensures g == h || Collision(H, EncodeHeader(g), EncodeHeader(h))
  {
    hide EncodeHeader;
    if EncodeHeader(g) == EncodeHeader(h) {
      HeaderInjective(g, h);
    }
  }

  lemma NumbersFront(h: Header, a: Bytes, r: Bytes)
    ensures PutNumbers(h, a + r) == PutNumbers(h, a) + r
    ensures |PutNumbers(h, a)| == 68 + |a|
  {
    hide U16, U64;
    Assoc();
  }

  lemma ProofsFront(h: Header, a: Bytes, r: Bytes)
    ensures PutProofs(h, a + r) == PutProofs(h, a) + r
    ensures |PutProofs(h, a)| == 202 + |h.blockPayload| + |a|
  {
    hide U16, U64;
    Assoc();
  }

  lemma HeaderLength(h: Header, r: Bytes)
    ensures PutHeader(h, r) == EncodeHeader(h) + r
    ensures |EncodeHeader(h)| == 278 + |h.blockPayload|
  {
    hide U64, PutNumbers, PutProofs;
    var chain := U64(h.chainId);
    assert chain + [] == chain;
    ProofsFront(h, chain, r);
    NumbersFront(h, PutProofs(h, chain), r);
  }

  // ---- Blocks ----

  /** An operation behind its length. */
  function PutFramed(op: Operation, r: Bytes): Bytes {
    U32(|Encode(op)| % 0x1_0000_0000) + (Encode(op) + r)
  }

  /** The operation is decoded from its own slice; bytes left over inside the slice are ignored. */
  function ParseFramed(s: Bytes): Parsed<Operation> {
    var (n, s) :- ReadU32(s);
    var (b, s) :- ReadFixed(s, n);
    if Decode(b).Success? then Success((Decode(b).value, s)) else Failure(InvalidSerialization)
  }

  function PutTail(b: Block, r: Bytes): Bytes {
    PutCounted(PutFramed, b.operations, FixedSig(b.leaderSignature) + PutCounted(PutSig, b.quorumSignatures, r))
  }

  function EncodeBlock(b: Block): Bytes { PutHeader(b.header, PutTail(b, [])) }

  function ParseTail(H: Digest, h: Header, s: Bytes): Parsed<Block> {
    var (ops, s) :- ParseCounted(ParseFramed, MAX_BLOCK_OPERATIONS, s);
    var (leader, s) :- ReadSig(s);
    var (quorum, s) :- ParseCounted(ReadSig, MAX_QUORUM_SIGNATURES, s);
    Success((Block(h, ops, leader, quorum, HeaderHash(H, h)), s))
  }

  /** The reader resumes behind the length of the re-encoded header. */
  function DecodeBlock(H: Digest, s: Bytes): Result<Block, DecodeError> {
    var (h, _) :- ParseHeader(s);
    var (_, s) :- ReadFixed(s, |EncodeHeader(h)|);
    var (b, _) :- ParseTail(H, h, s);
    Success(b)
  }

  lemma FramedInverts()
    ensures Inverts(PutFramed, ParseFramed, OperationOk)
  {
    hide PutOperation, ParseOperation, OperationOk, ReadU32, U32, ReadFixed;
    Reads();
    forall op: Operation, r: Bytes | OperationOk(op)
      ensures ParseFramed(PutFramed(op, r)) == Success((op, r))
    {
      EncodeLength(op);
      Front(Encode(op), r);
      DecodeEncode(op, []);
    }
  }

  lemma TailRoundTrip(H: Digest, b: Block, r: Bytes)
    requires BlockOk(H, b)
    ensures ParseTail(H, b.header, PutTail(b, r)) == Success((b, r))
  {
    hide ParseCounted, PutCounted, Inverts, OperationOk, ReadSig, FixedSig, HeaderHash;
    FramedInverts();
    ChangerInverts();
    Fields();
    var sigs := PutCounted(PutSig, b.quorumSignatures, r);
    CountedRoundTrip(PutSig, ReadSig, (s: Sig) => true, MAX_QUORUM_SIGNATURES, b.quorumSignatures, r);
    CountedRoundTrip(PutFramed, ParseFramed, OperationOk, MAX_BLOCK_OPERATIONS, b.operations, FixedSig(b.leaderSignature) + sigs);
  }

  /** Every block within the format's bounds survives encoding and decoding. */
  lemma BlockRoundTrip(H: Digest, b: Block)
    requires BlockOk(H, b)
    ensures DecodeBlock(H, EncodeBlock(b)) == Success(b)
  {
    hide PutTail, ParseTail, PutHeader, ParseHeader, ReadFixed;
    var tail := PutTail(b, []);
    HeaderRoundTrip(b.header, tail);
    HeaderLength(b.header, tail);
    Front(EncodeHeader(b.header), tail);
    TailRoundTrip(H, b, []);
  }

  lemma ParsedHeaderOk(s: Bytes)
    ensures ParseHeader(s).Success? ==> HeaderOk(ParseHeader(s).value.0)
  {
    hide ReadU16, ReadU64, ReadBytes16, ReadKey, ReadSig, ParseNumbers;
  }

  lemma FramedOk()
    ensures forall t :: ParseFramed(t).Success? ==> OperationOk(ParseFramed(t).value.0)
  {
    hide Decode, OperationOk, ReadU32, ReadFixed;
    forall t | ParseFramed(t).Success?
      ensures OperationOk(ParseFramed(t).value.0)
    {
      DecodedOk(ReadFixed(ReadU32(t).value.1, ReadU32(t).value.0).value.0);
    }
  }

  /** Whatever decodes as a block is within the format's bounds, operations included. */
  lemma DecodedBlockOk(H: Digest, s: Bytes)
    ensures DecodeBlock(H, s).Success? ==> BlockOk(H, DecodeBlock(H, s).value)
  {
    hide ParseHeader, EncodeHeader, ParseFramed, ReadSig, OperationOk, ReadU32, HeaderHash;
    if DecodeBlock(H, s).Success? {
      ParsedHeaderOk(s);
      FramedOk();
      var h := ParseHeader(s).value.0;
      var t := ReadFixed(s, |EncodeHeader(h)|).value.1;
      var n := ReadU32(t);
      ParsedOk(ParseFramed, OperationOk, n.value.0, n.value.1);
    }
  }

  /** Two decoded blocks with one block hash have the same header, or two header encodings collide. */
  lemma BlockHashBinds(H: Digest, s: Bytes, t: Bytes) returns (x: Bytes, y: Bytes)
    requires DecodeBlock(H, s).Success? && DecodeBlock(H, t).Success?
    requires DecodeBlock(H, s).value.blockHash == DecodeBlock(H, t).value.blockHash
    ensures DecodeBlock(H, s).value.header == DecodeBlock(H, t).value.header || Collision(H, x, y)
  {
    hide DecodeBlock, EncodeHeader, HeaderHash, OperationOk;
    DecodedBlockOk(H, s);
    DecodedBlockOk(H, t);
    var g, h := DecodeBlock(H, s).value.header, DecodeBlock(H, t).value.header;
    HeaderHashBinds(H, g, h);
    x, y := EncodeHeader(g), EncodeHeader(h);
  }

  /** A block cut off at the chain id decodes as a header but never as a block. */
  lemma LegacyBlockRefused(H: Digest, h: Header, r: Bytes)
    requires HeaderOk(h) && |r| < 8
    ensures DecodeBlock(H, PutHead(h, r)).Failure?
  {
    hide PutHeader, ParseHeader, ParseTail, PutNumbers, PutProofs;
    LegacyHeader(h, r);
    HeaderLength(h.(chainId := 1), []);
    ProofsFront(h, r, []);
    NumbersFront(h, PutProofs(h, r), []);
  }

  // ---- Size ----

  /** Bytes the operations contribute, each behind its four-byte length. */
  function Contribution(ops: seq<Operation>): nat {
    if ops == [] then 0 else 4 + |Encode(ops[0])| + Contribution(ops[1..])
  }

  function BlockSize(h: Header, ops: seq<Operation>, quorum: nat): nat {
    |EncodeHeader(h)| + 4 + Contribution(ops) + 64 + 4 + quorum * 64
  }

  lemma {:induction false} FramedLength(ops: seq<Operation>, r: Bytes)
    ensures |PutAll(PutFramed, ops, r)| == Contribution(ops) + |r|
  {
    hide Encode, U32;
    if ops != [] {
      FramedLength(ops[1..], r);
    }
  }

  lemma {:induction false} SigsLength(sigs: seq<Sig>)
    ensures |PutAll(PutSig, sigs, [])| == |sigs| * 64
  {
    if sigs != [] {
      SigsLength(sigs[1..]);
    }
  }

  /** The size is the length of the encoding, for every block, in range or not. */
  lemma SizeIsLength(b: Block)
    ensures BlockSize(b.header, b.operations, |b.quorumSignatures|) == |EncodeBlock(b)|
  {
    hide PutHeader, PutAll, U32, Contribution;
    var sigs := FixedSig(b.leaderSignature) + PutCounted(PutSig, b.quorumSignatures, []);
    HeaderLength(b.header, PutTail(b, []));
    FramedLength(b.operations, sigs);
    SigsLength(b.quorumSignatures);
  }

  lemma {:induction false} ContributionAppend(ops: seq<Operation>, more: seq<Operation>)
    ensures Contribution(ops + more) == Contribution(ops) + Contribution(more)
  {
    hide Encode;
    if ops == [] {
      assert ops + more == more;
    } else {
      assert (ops + more)[1..] == ops[1..] + more;
      ContributionAppend(ops[1..], more);
    }
  }

  lemma PrefixGrows(pending: seq<Operation>, i: nat, j: nat)
    requires i <= j <= |pending|
    ensures Contribution(pending[..i]) <= Contribution(pending[..j])
    ensures i < |pending| ==> Contribution(pending[..i + 1]) == Contribution(pending[..i]) + 4 + |Encode(pending[i])|
  {
    hide Encode;
    assert pending[..j] == pending[..i] + pending[i..j];
    ContributionAppend(pending[..i], pending[i..j]);
    if i < |pending| {
      assert pending[..i + 1] == pending[..i] + [pending[i]];
      ContributionAppend(pending[..i], [pending[i]]);
      assert Contribution([pending[i]]) == 4 + |Encode(pending[i])|;
    }
  }

  /**
   * The builder's answer is the longest prefix of the pending operations whose block fits, with its exact size.
   * When not even the empty block fits, the answer is the empty block.
   */
  method SelectBlockOperations(h: Header, pending: seq<Operation>, quorum: nat, maxSize: nat)
    returns (selected: seq<Operation>, size: nat)
    ensures selected <= pending && size == BlockSize(h, selected, quorum)
    ensures BlockSize(h, [], quorum) <= maxSize ==> size <= maxSize
    ensures BlockSize(h, [], quorum) > maxSize ==> selected == []
    ensures forall j | |selected| < j <= |pending| :: BlockSize(h, pending[..j], quorum) > maxSize
  {
    hide Encode, EncodeHeader;
    size := |EncodeHeader(h)| + 4 + 64 + 4 + quorum * 64;
    selected := [];
    for i := 0 to |pending|
      invariant selected == pending[..i]
      invariant size == BlockSize(h, pending[..i], quorum)
      invariant BlockSize(h, [], quorum) <= maxSize ==> size <= maxSize
      invariant BlockSize(h, [], quorum) > maxSize ==> selected == []
    {
      var contribution := 4 + |Encode(pending[i])|;
      PrefixGrows(pending, i, i + 1);
      if size + contribution > maxSize {
        forall j | i < j <= |pending|
          ensures BlockSize(h, pending[..j], quorum) > maxSize
        {
          PrefixGrows(pending, i + 1, j);
        }
        return;
      }
      size := size + contribution;
      selected := selected + [pending[i]];
    }
  }
}
