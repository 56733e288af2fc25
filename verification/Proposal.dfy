/** The light proposal: a header, a Merkle root and the ordered operation hashes instead of the operations. */
module Proposal {
  import opened Bytes
  import opened Hashing
  import opened Operations
  import opened PayloadCodec
  import opened Blocks
  import opened Merkle

  datatype ProposalMessage = ProposalMessage(header: Header, merkleRoot: Hash, txHashes: seq<Hash>, leaderSignature: Sig)

  predicate ProposalOk(p: ProposalMessage) {
    HeaderOk(p.header) && |p.txHashes| <= 25_000
  }

  function PutHash(h: Hash, r: Bytes): Bytes { FixedSig(h) + r }

  function ReadHash(s: Bytes): Parsed<Hash> {
    var (b, s) :- ReadSig(s);
    Success((b, s))
  }

  function PutProposal(p: ProposalMessage, r: Bytes): Bytes {
    var hb := EncodeHeader(p.header);
    U32(|hb| % 0x1_0000_0000) + (hb + (PutHash(p.merkleRoot, PutCounted(PutHash, p.txHashes, PutSig(p.leaderSignature, r)))))
  }

  function EncodeProposal(p: ProposalMessage): Bytes { PutProposal(p, []) }

  function ParseProposal(s: Bytes): Parsed<ProposalMessage> {
    var (n, s) :- ReadU32(s);
    var (hb, s) :- ReadFixed(s, n);
    var (h, _) :- ParseHeader(hb);
    var (root, s) :- ReadHash(s);
    var (hashes, s) :- ParseCounted(ReadHash, MAX_BLOCK_OPERATIONS, s);
    var (sig, s) :- ReadSig(s);
    Success((ProposalMessage(h, root, hashes, sig), s))
  }

  /** Bytes behind the signature are ignored. */
  function DecodeProposal(s: Bytes): Result<ProposalMessage, DecodeError> {
    var (p, _) :- ParseProposal(s);
    Success(p)
  }

  lemma HashesInvert(h: Hash, g: Sig, r: Bytes)
    ensures Inverts(PutHash, ReadHash, (h: Hash) => true)
    ensures ReadHash(PutHash(h, r)) == Success((h, r))
    ensures ReadSig(PutSig(g, r)) == Success((g, r))
  {
    hide FixedSig, ReadSig;
    Fields();
  }

  lemma ProposalRoundTrip(p: ProposalMessage, r: Bytes)
    requires ProposalOk(p)
    ensures ParseProposal(PutProposal(p, r)) == Success((p, r))
  {
    hide EncodeHeader, ParseHeader, ReadU32, U32, ReadFixed, PutCounted, ParseCounted, PutHash, ReadHash, PutSig, ReadSig, Inverts;
    Reads();
    var sig := PutSig(p.leaderSignature, r);
    var hashes := PutCounted(PutHash, p.txHashes, sig);
    HashesInvert(p.merkleRoot, p.leaderSignature, hashes);
    HashesInvert(p.merkleRoot, p.leaderSignature, r);
    CountedRoundTrip(PutHash, ReadHash, (h: Hash) => true, MAX_BLOCK_OPERATIONS, p.txHashes, sig);
    var hb := EncodeHeader(p.header);
    HeaderLength(p.header, []);
    HeaderEncoded(p.header);
    Front(hb, PutHash(p.merkleRoot, hashes));
  }

  lemma HeaderEncoded(h: Header)
    requires HeaderOk(h)
    ensures ParseHeader(EncodeHeader(h)) == Success((h, []))
  {
    HeaderRoundTrip(h, []);
  }

  /** The root carried by a proposal for these operations. */
  function MerkleOf(H: Digest, ops: seq<Operation>): Hash { Root(H, OpHashes(H, ops)) }

  function Propose(H: Digest, b: Block): ProposalMessage {
    ProposalMessage(b.header, MerkleOf(H, b.operations), OpHashes(H, b.operations), b.leaderSignature)
  }

  function ReconstructBlock(H: Digest, h: Header, ops: seq<Operation>, sig: Sig): Block {
    Block(h, ops, sig, [], HeaderHash(H, h))
  }

  /** Operations with the proposed hashes, in the proposed order, are the leader's, or two encodings collide. */
  lemma {:induction false} HashesDetermine(H: Digest, a: seq<Operation>, b: seq<Operation>) returns (x: Bytes, y: Bytes)
    requires (forall op | op in a :: OperationOk(op)) && (forall op | op in b :: OperationOk(op))
    requires OpHashes(H, a) == OpHashes(H, b)
    ensures a == b || Collision(H, x, y)
  {
    hide OperationOk, Encode;
    x, y := [], [];
    assert |a| == |OpHashes(H, a)| == |b|;
    if a != b {
      var i :| 0 <= i < |a| && a[i] != b[i];
      assert OpHash(H, a[i]) == OpHashes(H, a)[i] == OpHash(H, b[i]);
      OpHashBinds(H, a[i], b[i]);
      x, y := Encode(a[i]), Encode(b[i]);
    }
  }

  /** Equally many operations with the same Merkle root are the same operations, or a collision is exhibited. */
  lemma RootDetermines(H: Digest, a: seq<Operation>, b: seq<Operation>) returns (x: Bytes, y: Bytes)
    requires (forall op | op in a :: OperationOk(op)) && (forall op | op in b :: OperationOk(op))
    requires |a| == |b| && MerkleOf(H, a) == MerkleOf(H, b)
    ensures a == b || Collision(H, x, y)
  {
    hide OperationOk, Root;
    if OpHashes(H, a) == OpHashes(H, b) {
      x, y := HashesDetermine(H, a, b);
    } else {
      x, y := RootBinds(H, OpHashes(H, a), OpHashes(H, b));
    }
  }

  /** The header carries the root of the block's own operations. */
  predicate Rooted(H: Digest, b: Block) { b.header.operationsHash == MerkleOf(H, b.operations) }

  /**
    Equal block hashes of rooted blocks with equally many operations mean the same header and the same operations in the same
    order, or a collision is exhibited.
   */
  lemma BlockHashDetermines(H: Digest, a: Block, b: Block) returns (x: Bytes, y: Bytes)
    requires BlockOk(H, a) && BlockOk(H, b) && Rooted(H, a) && Rooted(H, b) && |a.operations| == |b.operations|
    requires a.blockHash == b.blockHash
    ensures (a.header == b.header && a.operations == b.operations) || Collision(H, x, y)
  {
    hide HeaderHash, EncodeHeader, OperationOk, MerkleOf;
    HeaderHashBinds(H, a.header, b.header);
    if a.header != b.header {
      x, y := EncodeHeader(a.header), EncodeHeader(b.header);
    } else {
      x, y := RootDetermines(H, a.operations, b.operations);
    }
  }

  /** The same for two blocks rebuilt from proposals. */
  lemma RebuiltHashDetermines(H: Digest, g: Header, a: seq<Operation>, s: Sig, h: Header, b: seq<Operation>, t: Sig) returns (x: Bytes, y: Bytes)
    requires HeaderOk(g) && HeaderOk(h) && (forall op | op in a :: OperationOk(op)) && (forall op | op in b :: OperationOk(op))
    requires g.operationsHash == MerkleOf(H, a) && h.operationsHash == MerkleOf(H, b) && |a| == |b| <= 25_000
    requires ReconstructBlock(H, g, a, s).blockHash == ReconstructBlock(H, h, b, t).blockHash
    ensures (g == h && a == b) || Collision(H, x, y)
  {
    hide HeaderHash, OperationOk, MerkleOf;
    x, y := BlockHashDetermines(H, ReconstructBlock(H, g, a, s), ReconstructBlock(H, h, b, t));
  }
}
