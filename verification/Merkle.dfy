/** The operations Merkle root: the level-by-level loop, its recursive meaning, and what it binds. */
module Merkle {
  import opened Bytes
  import opened Hashing

  /** The root of no operations at all. */
  function Zero(): Hash { seq(DIGEST_LEN, _ => 0) }

  /** The left bytes, then the right ones. */
  function Joined(left: Bytes, right: Bytes): Bytes { left + right }

  function Pair(H: Digest, a: Hash, b: Hash): Hash { H(a + b) }

  /** Pairs are combined left to right; an odd last node is paired with itself. */
  function Level(H: Digest, hs: seq<Hash>): (r: seq<Hash>)
    ensures |r| == (|hs| + 1) / 2
  {
    if hs == [] then []
    else if |hs| == 1 then [Pair(H, hs[0], hs[0])]
    else [Pair(H, hs[0], hs[1])] + Level(H, hs[2..])
  }

  function Root(H: Digest, hs: seq<Hash>): Hash
    decreases |hs|
  {
    if hs == [] then Zero() else if |hs| == 1 then hs[0] else Root(H, Level(H, hs))
  }

  /** One pass over a level in chunks of two. */
  method NextLevel(H: Digest, level: seq<Hash>) returns (next: seq<Hash>)
    ensures next == Level(H, level)
    ensures |next| == (|level| + 1) / 2
    ensures forall i | 0 <= i < |next| :: next[i] == H(Joined(level[2 * i], level[if 2 * i + 1 < |level| then 2 * i + 1 else 2 * i]))
  {
    next := [];
    var i := 0;
    while i < |level|
      invariant 0 <= i <= |level|
      invariant next + Level(H, level[i..]) == Level(H, level)
      decreases |level| - i
    {
      ghost var rest := level[i..];
      if i + 1 < |level| {
        assert rest[2..] == level[i + 2..];
        next := next + [Pair(H, level[i], level[i + 1])];
        i := i + 2;
      } else {
        assert Level(H, rest) == [Pair(H, level[i], level[i])];
        next := next + [Pair(H, level[i], level[i])];
        i := i + 1;
      }
    }
    forall k | 0 <= k < |next|
      ensures next[k] == H(Joined(level[2 * k], level[if 2 * k + 1 < |level| then 2 * k + 1 else 2 * k]))
    {
      LevelEntry(H, level, k);
    }
  }

  /** Entry `k` of the next level is the digest of the left node followed by the right one, or by itself where it is the last. */
  lemma {:induction false} LevelEntry(H: Digest, hs: seq<Hash>, k: nat)
    requires k < (|hs| + 1) / 2
    ensures Level(H, hs)[k] == H(Joined(hs[2 * k], hs[if 2 * k + 1 < |hs| then 2 * k + 1 else 2 * k]))
    decreases |hs|
  {
    if k > 0 {
      var t := hs[2..];
      LevelEntry(H, t, k - 1);
      assert t[2 * (k - 1)] == hs[2 * k];
      assert Level(H, hs)[k] == Level(H, t)[k - 1];
    }
  }

  method MerkleRoot(H: Digest, hashes: seq<Hash>) returns (root: Hash)
    ensures root == Root(H, hashes)
  {
    if hashes == [] {
      return Zero();
    }
    var level := hashes;
    while |level| > 1
      invariant level != [] && Root(H, level) == Root(H, hashes)
      decreases |level|
    {
      level := NextLevel(H, level);
    }
    root := level[0];
  }

  // ---- Binding ----

  /** Two different pairs with one digest are two different inputs with one digest. */
  lemma PairBinds(H: Digest, a: Hash, b: Hash, c: Hash, d: Hash) returns (x: Bytes, y: Bytes)
    requires Pair(H, a, b) == Pair(H, c, d) && (a, b) != (c, d)
    ensures Collision(H, x, y)
  {
    x, y := a + b, c + d;
    assert (a + b)[..DIGEST_LEN] == a && (c + d)[..DIGEST_LEN] == c;
    assert (a + b)[DIGEST_LEN..] == b && (c + d)[DIGEST_LEN..] == d;
  }

  lemma {:induction false} LevelBinds(H: Digest, a: seq<Hash>, b: seq<Hash>) returns (x: Bytes, y: Bytes)
    requires |a| == |b| && a != b && Level(H, a) == Level(H, b)
    ensures Collision(H, x, y)
    decreases |a|
  {
    assert Level(H, a)[0] == Level(H, b)[0];
    if |a| == 1 {
      x, y := PairBinds(H, a[0], a[0], b[0], b[0]);
    } else if (a[0], a[1]) != (b[0], b[1]) {
      x, y := PairBinds(H, a[0], a[1], b[0], b[1]);
    } else {
      assert a == [a[0], a[1]] + a[2..] && b == [b[0], b[1]] + b[2..];
      assert Level(H, a)[1..] == Level(H, a[2..]) && Level(H, b)[1..] == Level(H, b[2..]);
      x, y := LevelBinds(H, a[2..], b[2..]);
    }
  }

  lemma Short(a: seq<Hash>, b: seq<Hash>)
    requires |a| == |b| <= 1 && (|a| == 1 ==> a[0] == b[0])
    ensures a == b
  {
  }

  /** Different lists of equal length with the same root exhibit a collision. */
  lemma {:induction false} RootBinds(H: Digest, a: seq<Hash>, b: seq<Hash>) returns (x: Bytes, y: Bytes)
    requires |a| == |b| && a != b && Root(H, a) == Root(H, b)
    ensures Collision(H, x, y)
    decreases |a|
  {
    if |a| <= 1 {
      Short(a, b);
      x, y := [], [];
    } else if Level(H, a) == Level(H, b) {
      x, y := LevelBinds(H, a, b);
    } else {
      x, y := RootBinds(H, Level(H, a), Level(H, b));
    }
  }

  lemma {:induction false} LevelDuplicate(H: Digest, a: seq<Hash>)
    requires |a| % 2 == 1
    ensures Level(H, a + [a[|a| - 1]]) == Level(H, a)
    decreases |a|
  {
    var d := a + [a[|a| - 1]];
    if |a| == 1 {
      assert d[2..] == [];
    } else {
      assert d[2..] == a[2..] + [a[2..][|a[2..]| - 1]];
      LevelDuplicate(H, a[2..]);
    }
  }

  /** Equal length is needed: repeating the last element of an odd list of three or more keeps the root. */
  lemma OddDuplicate(H: Digest, a: seq<Hash>)
    requires |a| % 2 == 1 && |a| >= 3
    ensures Root(H, a + [a[|a| - 1]]) == Root(H, a)
  {
    LevelDuplicate(H, a);
  }

  /** And up to collisions it is the only list one longer with that root. */
  lemma OddDuplicateOnly(H: Digest, a: seq<Hash>, b: seq<Hash>) returns (x: Bytes, y: Bytes)
    requires |a| % 2 == 1 && |a| >= 3 && |b| == |a| + 1 && Root(H, a) == Root(H, b)
    ensures b == a + [a[|a| - 1]] || Collision(H, x, y)
  {
    OddDuplicate(H, a);
    x, y := [], [];
    if b != a + [a[|a| - 1]] {
      x, y := RootBinds(H, a + [a[|a| - 1]], b);
    }
  }
}
