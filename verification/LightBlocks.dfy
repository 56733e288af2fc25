/** From a light proposal back to the leader's block, through the operations a mempool holds. */
module LightBlocks {
  import opened Bytes
  import opened Hashing
  import opened Operations
  import opened PayloadCodec
  import opened Blocks
  import opened Merkle
  import opened Proposal
  import opened PoolIndex
  import opened Pool

  /** Look every hash up among the resident operations; one miss and there is no block. */
  function Fetch(H: Digest, resident: seq<Operation>, hashes: seq<Hash>): Option<seq<Operation>> {
    if hashes == [] then Some([]) else
    match (Scan(H, resident, hashes[0]), Fetch(H, resident, hashes[1..]))
    case (Some(op), Some(ops)) => Some([op] + ops)
    case _ => None
  }

  function Rebuild(H: Digest, resident: seq<Operation>, p: ProposalMessage): Option<Block> {
    match Fetch(H, resident, p.txHashes)
    case Some(ops) => Some(ReconstructBlock(H, p.header, ops, p.leaderSignature))
    case None => None
  }

  lemma ScanTaken(H: Digest, resident: seq<Operation>, h: Hash)
    ensures Scan(H, resident, h).Some? <==> HashTaken(H, resident, h)
    ensures Scan(H, resident, h).Some? ==> Scan(H, resident, h).value in resident && OpHash(H, Scan(H, resident, h).value) == h
  {
    hide OpHash, Scan;
    ScanFinds(H, resident, h);
  }

  /** Fetching succeeds exactly when every hash is resident, and then yields resident operations with those hashes. */
  lemma {:induction false} FetchExact(H: Digest, resident: seq<Operation>, hashes: seq<Hash>)
    ensures Fetch(H, resident, hashes).Some? <==> forall h | h in hashes :: HashTaken(H, resident, h)
    ensures Fetch(H, resident, hashes).Some? ==>
              var ops := Fetch(H, resident, hashes).value;
              OpHashes(H, ops) == hashes && forall op | op in ops :: op in resident
  {
    hide OpHash, HashTaken, Scan;
    if hashes != [] {
      FetchExact(H, resident, hashes[1..]);
      ScanTaken(H, resident, hashes[0]);
      assert hashes == [hashes[0]] + hashes[1..];
      if Fetch(H, resident, hashes).Some? {
        var ops := Fetch(H, resident, hashes).value;
        var tail := Fetch(H, resident, hashes[1..]).value;
        assert forall i | 0 < i < |ops| :: ops[i] == tail[i - 1];
        assert forall i | 0 < i < |ops| :: OpHash(H, ops[i]) == OpHashes(H, tail)[i - 1] == hashes[i];
        assert OpHashes(H, ops) == hashes;
      }
    }
  }

  /**
   * The proposal for a block survives the wire; whoever holds operations with all its hashes rebuilds a block with the
   * proposed Merkle root; and that block is the leader's, byte for byte, unless two operation encodings collide.
   */
  lemma LeaderBlockRebuilt(H: Digest, resident: seq<Operation>, b: Block) returns (x: Bytes, y: Bytes)
    requires BlockOk(H, b) && b.quorumSignatures == []
    requires forall op | op in resident :: OperationOk(op)
    requires forall op | op in b.operations :: HashTaken(H, resident, OpHash(H, op))
    ensures var received := DecodeProposal(EncodeProposal(Propose(H, b)));
            received == Success(Propose(H, b)) && Rebuild(H, resident, received.value).Some?
            && var r := Rebuild(H, resident, received.value).value;
               MerkleOf(H, r.operations) == received.value.merkleRoot
               && ((r == b && EncodeBlock(r) == EncodeBlock(b)) || Collision(H, x, y))
  {
    hide OpHash, OperationOk, HashTaken, EncodeBlock, HeaderHash, PutProposal, ParseProposal, Root, Fetch;
    var p := Propose(H, b);
    ProposalRoundTrip(p, []);
    forall h | h in p.txHashes
      ensures HashTaken(H, resident, h)
    {
      var i :| 0 <= i < |p.txHashes| && p.txHashes[i] == h;
      assert b.operations[i] in b.operations;
    }
    FetchExact(H, resident, p.txHashes);
    var ops := Fetch(H, resident, p.txHashes).value;
    x, y := HashesDetermine(H, ops, b.operations);
  }

  /** The same from any run of a mempool that was offered only well-formed operations. */
  lemma RebuiltAfterRun(env: Env, es: seq<Event>, b: Block) returns (x: Bytes, y: Bytes)
    requires forall e | e in es && e.Admit? :: OperationOk(e.op)
    requires BlockOk(env.H, b) && b.quorumSignatures == []
    requires forall op | op in b.operations :: HashTaken(env.H, Run(env, State([], [], None), es).ops, OpHash(env.H, op))
    ensures var received := DecodeProposal(EncodeProposal(Propose(env.H, b)));
            received == Success(Propose(env.H, b)) && Rebuild(env.H, Run(env, State([], [], None), es).ops, received.value).Some?
            && var r := Rebuild(env.H, Run(env, State([], [], None), es).ops, received.value).value;
               MerkleOf(env.H, r.operations) == received.value.merkleRoot
               && ((r == b && EncodeBlock(r) == EncodeBlock(b)) || Collision(env.H, x, y))
  {
    hide OpHash, OperationOk, HashTaken, Run, Rebuild, PutProposal, ParseProposal, EncodeBlock, Root, HeaderHash;
    var resident := Run(env, State([], [], None), es).ops;
    forall op | op in resident
      ensures OperationOk(op)
    {
      RunResidents(env, State([], [], None), es, op);
      var k :| 0 <= k < |es| && es[k].Admit? && es[k].op == op;
      assert es[k] in es;
    }
    x, y := LeaderBlockRebuilt(env.H, resident, b);
  }
}
