/** Quorum counting: the threshold, the signature loop, and why two quorums must overlap. */
module Quorum {
  import opened Bytes
  import opened Hashing
  import opened Operations
  import opened Validators

  function Threshold(n: nat): nat { if n == 0 then 0 else n * 2 / 3 + 1 }

  /** The largest number of faulty validators the protocol tolerates. */
  function Faulty(n: nat): nat
    requires n > 0
  {
    (n - 1) / 3
  }

  /** The threshold is all but the tolerated faults, and two thresholds exceed the whole by more than the faults. */
  lemma ThresholdExact(n: nat)
    requires n > 0
    ensures Threshold(n) == n - Faulty(n)
    ensures 2 * Threshold(n) - n >= Faulty(n) + 1
  {
  }

  // ---- Who a signature is counted for ----

  /** The first active validator whose key accepts the signature, or the length. */
  function Signer(verify: Verify, active: seq<Info>, sig: Sig, hash: Hash): (i: nat)
    ensures i <= |active| && (i < |active| ==> verify(sig, active[i].key, hash))
    ensures forall j | 0 <= j < i :: !verify(sig, active[j].key, hash)
  {
    if active == [] then 0
    else if verify(sig, active[0].key, hash) then 0
    else 1 + Signer(verify, active[1..], sig, hash)
  }

  function Counted(verify: Verify, active: seq<Info>, sigs: seq<Sig>, hash: Hash): set<u64> {
    set k | 0 <= k < |sigs| && Signer(verify, active, sigs[k], hash) < |active| :: active[Signer(verify, active, sigs[k], hash)].id
  }

  predicate Accepts(verify: Verify, r: Roster, sigs: seq<Sig>, hash: Hash) {
    var active := Actives(r.validators);
    |Counted(verify, active, sigs, hash)| >= Threshold(|active|)
  }

  method VerifyQuorum(verify: Verify, sigs: seq<Sig>, validators: ValidatorSet, hash: Hash) returns (ok: bool)
    ensures ok <==> Accepts(verify, validators.View(), sigs, hash)
  {
    hide Signer, Actives;
    var active := validators.ActiveValidators();
    var valid: set<u64> := {};
    for k := 0 to |sigs|
      invariant valid == Counted(verify, active, sigs[..k], hash)
    {
      CountedStep(verify, active, sigs, hash, k);
      var j := 0;
      while j < |active| && !verify(sigs[k], active[j].key, hash)
        invariant j <= |active| && forall i | 0 <= i < j :: !verify(sigs[k], active[i].key, hash)
      {
        j := j + 1;
      }
      if j < |active| {
        valid := valid + {active[j].id};
      }
    }
    assert sigs[..|sigs|] == sigs;
    ok := |valid| >= Threshold(|active|);
  }

  lemma CountedStep(verify: Verify, active: seq<Info>, sigs: seq<Sig>, hash: Hash, k: nat)
    requires k < |sigs|
    ensures var i := Signer(verify, active, sigs[k], hash);
            Counted(verify, active, sigs[..k + 1], hash)
            == Counted(verify, active, sigs[..k], hash) + if i < |active| then {active[i].id} else {}
  {
    hide Signer;
    var a, b := sigs[..k], sigs[..k + 1];
    assert forall j | 0 <= j < k :: a[j] == b[j];
    assert b[k] == sigs[k];
  }

  // ---- Intersection ----

  /** The validator with this id is active and some signature of the list verifies under its key. */
  predicate Signed(verify: Verify, active: seq<Info>, sigs: seq<Sig>, hash: Hash, id: u64) {
    exists i, k | 0 <= i < |active| && 0 <= k < |sigs| :: active[i].id == id && verify(sigs[k], active[i].key, hash)
  }

  lemma CountedSigned(verify: Verify, active: seq<Info>, sigs: seq<Sig>, hash: Hash)
    ensures forall id | id in Counted(verify, active, sigs, hash) :: Signed(verify, active, sigs, hash, id)
    ensures Counted(verify, active, sigs, hash) <= Ids(active)
  {
    forall id | id in Counted(verify, active, sigs, hash)
      ensures Signed(verify, active, sigs, hash, id) && id in Ids(active)
    {
      var k :| 0 <= k < |sigs| && Signer(verify, active, sigs[k], hash) < |active| && active[Signer(verify, active, sigs[k], hash)].id == id;
      var i := Signer(verify, active, sigs[k], hash);
      assert active[i].id == id && verify(sigs[k], active[i].key, hash);
      assert active[i] in active;
    }
  }

  lemma {:induction false} IdsBounded(vs: seq<Info>)
    ensures |Ids(vs)| <= |vs|
  {
    if vs != [] {
      IdsBounded(vs[1..]);
      assert vs == [vs[0]] + vs[1..];
      assert Ids(vs) == {vs[0].id} + Ids(vs[1..]);
    }
  }

  lemma {:induction false} SubsetSize<T>(a: set<T>, b: set<T>)
    requires a <= b
    ensures |a| <= |b|
  {
    assert b == a + (b - a);
  }

  lemma Overlap<T>(a: set<T>, b: set<T>, whole: set<T>, n: nat)
    requires a <= whole && b <= whole && |whole| <= n
    ensures |a * b| >= |a| + |b| - n
  {
    SubsetSize(a + b, whole);
    assert |a + b| + |a * b| == |a| + |b| by {
      assert a + b == a + (b - a) && b == (b - a) + (a * b);
    }
  }

  /**
   * Quorums on two hashes under one set share more validators than may be faulty, each with a verifying signature on
   * both hashes, whatever duplicates or junk the signature lists contain.
   */
  lemma QuorumsIntersect(verify: Verify, r: Roster, sigs1: seq<Sig>, hash1: Hash, sigs2: seq<Sig>, hash2: Hash)
    returns (both: set<u64>)
    requires |Actives(r.validators)| > 0
    requires Accepts(verify, r, sigs1, hash1) && Accepts(verify, r, sigs2, hash2)
    ensures |both| >= Faulty(|Actives(r.validators)|) + 1
    ensures forall id | id in both ::
              Signed(verify, Actives(r.validators), sigs1, hash1, id) && Signed(verify, Actives(r.validators), sigs2, hash2, id)
  {
    hide Signer, Counted, Signed, Actives;
    var active := Actives(r.validators);
    var a, b := Counted(verify, active, sigs1, hash1), Counted(verify, active, sigs2, hash2);
    CountedSigned(verify, active, sigs1, hash1);
    CountedSigned(verify, active, sigs2, hash2);
    IdsBounded(active);
    Overlap(a, b, Ids(active), |active|);
    ThresholdExact(|active|);
    both := a * b;
  }

  /** This very validator has a verifying signature in the list. */
  predicate SignedBy(verify: Verify, sigs: seq<Sig>, hash: Hash, v: Info) {
    exists k | 0 <= k < |sigs| :: verify(sigs[k], v.key, hash)
  }

  lemma {:induction false} ImageSize(s: set<Info>)
    ensures |set v | v in s :: v.id| <= |s|
  {
    var ids := set v | v in s :: v.id;
    if s != {} {
      var v :| v in s;
      ImageSize(s - {v});
      var fewer := set w | w in s - {v} :: w.id;
      assert ids == fewer + {v.id};
    }
  }

  lemma OneEntry(verify: Verify, active: seq<Info>, sigs: seq<Sig>, hash: Hash, v: Info)
    requires DistinctIds(active) && v in active && Signed(verify, active, sigs, hash, v.id)
    ensures SignedBy(verify, sigs, hash, v)
  {
    var i, k :| 0 <= i < |active| && 0 <= k < |sigs| && active[i].id == v.id && verify(sigs[k], active[i].key, hash);
    var j :| 0 <= j < |active| && active[j] == v;
    assert i == j;
  }

  /** With distinct ids the overlap is of validators: one and the same active key verifies a signature on each hash. */
  lemma QuorumsShareValidators(verify: Verify, r: Roster, sigs1: seq<Sig>, hash1: Hash, sigs2: seq<Sig>, hash2: Hash)
    returns (both: set<Info>)
    requires DistinctIds(r.validators) && |Actives(r.validators)| > 0
    requires Accepts(verify, r, sigs1, hash1) && Accepts(verify, r, sigs2, hash2)
    ensures |both| >= Faulty(|Actives(r.validators)|) + 1
    ensures forall v | v in both :: v in Actives(r.validators) && SignedBy(verify, sigs1, hash1, v) && SignedBy(verify, sigs2, hash2, v)
  {
    hide Signer, Counted, Signed, SignedBy, Actives, Accepts, Faulty;
    var active := Actives(r.validators);
    ActivesDistinct(r.validators);
    var ids := QuorumsIntersect(verify, r, sigs1, hash1, sigs2, hash2);
    both := set v | v in active && v.id in ids;
    forall v | v in both
      ensures SignedBy(verify, sigs1, hash1, v) && SignedBy(verify, sigs2, hash2, v)
    {
      OneEntry(verify, active, sigs1, hash1, v);
      OneEntry(verify, active, sigs2, hash2, v);
    }
    var held := set v | v in both :: v.id;
    assert ids <= held by {
      forall id | id in ids
        ensures id in held
      {
        var v := SignerEntry(verify, active, sigs1, hash1, id);
        assert v in both;
      }
    }
    SubsetSize(ids, held);
    ImageSize(both);
  }

  lemma SignerEntry(verify: Verify, active: seq<Info>, sigs: seq<Sig>, hash: Hash, id: u64) returns (v: Info)
    requires Signed(verify, active, sigs, hash, id)
    ensures v in active && v.id == id
  {
    var i, k :| 0 <= i < |active| && 0 <= k < |sigs| && active[i].id == id && verify(sigs[k], active[i].key, hash);
    v := active[i];
  }

  /** A quorum must be carried by that many different active validators: with fewer signers nothing is accepted. */
  lemma QuorumNeedsSigners(verify: Verify, r: Roster, sigs: seq<Sig>, hash: Hash, signers: set<u64>)
    requires |Actives(r.validators)| > 0
    requires forall id | Signed(verify, Actives(r.validators), sigs, hash, id) :: id in signers
    requires |signers| < |Actives(r.validators)| - Faulty(|Actives(r.validators)|)
    ensures !Accepts(verify, r, sigs, hash)
  {
    hide Signer, Counted, Signed, Actives;
    var active := Actives(r.validators);
    CountedSigned(verify, active, sigs, hash);
    SubsetSize(Counted(verify, active, sigs, hash), signers);
    ThresholdExact(|active|);
  }

  /** With distinct keys that accept each other's signatures nowhere, every signer is counted. */
  lemma SeparateKeysCount(verify: Verify, active: seq<Info>, sigs: seq<Sig>, hash: Hash, id: u64)
    requires forall i, j, k | 0 <= i < |active| && 0 <= j < |active| && 0 <= k < |sigs| ::
               verify(sigs[k], active[i].key, hash) && verify(sigs[k], active[j].key, hash) ==> i == j
    ensures id in Counted(verify, active, sigs, hash) <==> Signed(verify, active, sigs, hash, id)
  {
    CountedSigned(verify, active, sigs, hash);
    if Signed(verify, active, sigs, hash, id) {
      var i, k :| 0 <= i < |active| && 0 <= k < |sigs| && active[i].id == id && verify(sigs[k], active[i].key, hash);
      var s := Signer(verify, active, sigs[k], hash);
      assert s == i;
    }
  }

  /** Without active validators the threshold is zero, so every list is accepted, the empty one included. */
  lemma NobodyActive(verify: Verify, r: Roster, sigs: seq<Sig>, hash: Hash)
    requires Actives(r.validators) == []
    ensures Accepts(verify, r, sigs, hash)
  {
    hide Signer, Counted, Actives;
  }
}
