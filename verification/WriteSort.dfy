/** Sorting a write log by key: the canonical order that hides the hash map's iteration order. */
module WriteSort {
  import opened Bytes
  import opened ContractStore

  /** Byte-wise lexicographic order, the order of byte vectors. */
  predicate Less(a: Bytes, b: Bytes) {
    |b| > 0 && (|a| == 0 || a[0] < b[0] || (a[0] == b[0] && Less(a[1..], b[1..])))
  }

  /** Byte vectors compare at the first place where they differ; a proper prefix comes first. */
  lemma {:induction false} LessMeans(a: Bytes, b: Bytes)
    ensures Less(a, b) <==> exists i: nat :: FirstDifference(a, b, i)
    decreases |a|
  {
    if |a| > 0 && |b| > 0 && a[0] == b[0] {
      LessMeans(a[1..], b[1..]);
      if i: nat :| FirstDifference(a[1..], b[1..], i) {
        assert a[..i + 1] == [a[0]] + a[1..][..i] && b[..i + 1] == [b[0]] + b[1..][..i];
        assert FirstDifference(a, b, i + 1);
      }
      if i: nat :| FirstDifference(a, b, i) {
        assert i > 0;
        assert a[1..][..i - 1] == a[..i][1..] && b[1..][..i - 1] == b[..i][1..];
        assert FirstDifference(a[1..], b[1..], i - 1);
      }
    } else {
      assert Less(a, b) ==> FirstDifference(a, b, 0);
      assert forall i: nat | 0 < i <= |a| && i < |b| && a[..i] == b[..i] :: a[..i][0] == b[..i][0];
    }
  }

  /** Up to `i` they agree, and there `a` ends or has the smaller byte. */
  predicate FirstDifference(a: Bytes, b: Bytes, i: nat) {
    i <= |a| && i < |b| && a[..i] == b[..i] && (i == |a| || a[i] < b[i])
  }

  lemma {:induction false} LessTransitive(a: Bytes, b: Bytes, c: Bytes)
    requires Less(a, b) && Less(b, c)
    ensures Less(a, c)
  {
    if |a| > 0 && a[0] == b[0] == c[0] {
      LessTransitive(a[1..], b[1..], c[1..]);
    }
  }

  lemma {:induction false} LessTotal(a: Bytes, b: Bytes)
    ensures Less(a, b) || a == b || Less(b, a)
    ensures !(Less(a, b) && Less(b, a))
    ensures !Less(a, a)
  {
    if |a| > 0 && |b| > 0 && a[0] == b[0] {
      LessTotal(a[1..], b[1..]);
      assert a == [a[0]] + a[1..] && b == [b[0]] + b[1..];
    }
    if |a| > 0 {
      LessTotal(a[1..], a[1..]);
    }
  }

  /** Strictly increasing keys. */
  predicate Sorted(ws: seq<WriteOp>) {
    forall i, j | 0 <= i < j < |ws| :: Less(ws[i].key, ws[j].key)
  }

  ghost predicate SameElements(a: seq<WriteOp>, b: seq<WriteOp>) {
    forall w :: w in a <==> w in b
  }

  /** Stable insertion: a write goes behind every key that is not larger. */
  function Insert(w: WriteOp, ws: seq<WriteOp>): seq<WriteOp> {
    if ws == [] then [w]
    else if Less(w.key, ws[|ws| - 1].key) then Insert(w, ws[..|ws| - 1]) + [ws[|ws| - 1]]
    else ws + [w]
  }

  function Sort(ws: seq<WriteOp>): seq<WriteOp> {
    if ws == [] then [] else Insert(ws[|ws| - 1], Sort(ws[..|ws| - 1]))
  }

  function ValueLen(w: WriteOp): nat {
    match w.value
    case Some(v) => |v|
    case None => 0
  }

  function ValueBytes(ws: seq<WriteOp>): nat {
    if ws == [] then 0 else ValueBytes(ws[..|ws| - 1]) + ValueLen(ws[|ws| - 1])
  }

  lemma SortedAppend(ws: seq<WriteOp>, w: WriteOp)
    requires Sorted(ws) && forall x | x in ws :: Less(x.key, w.key)
    ensures Sorted(ws + [w])
  {
    hide Less;
  }

  lemma {:induction false} InsertKeeps(w: WriteOp, ws: seq<WriteOp>)
    requires Sorted(ws) && forall x | x in ws :: x.key != w.key
    ensures Sorted(Insert(w, ws))
    ensures forall x :: x in Insert(w, ws) <==> x in ws || x == w
    ensures ValueBytes(Insert(w, ws)) == ValueBytes(ws) + ValueLen(w)
  {
    hide Less;
    if ws != [] {
      var front, last := ws[..|ws| - 1], ws[|ws| - 1];
      assert ws == front + [last];
      assert forall x | x in front :: Less(x.key, last.key);
      if Less(w.key, last.key) {
        InsertKeeps(w, front);
        var r := Insert(w, front);
        assert (r + [last])[..|r|] == r;
        SortedAppend(r, last);
      } else {
        assert (ws + [w])[..|ws|] == ws;
        LessTotal(w.key, last.key);
        forall x | x in front
          ensures Less(x.key, w.key)
        {
          LessTransitive(x.key, last.key, w.key);
        }
        SortedAppend(ws, w);
      }
    }
  }

  lemma {:induction false} SortKeeps(ws: seq<WriteOp>)
    requires DistinctKeys(ws)
    ensures Sorted(Sort(ws))
    ensures SameElements(Sort(ws), ws)
    ensures ValueBytes(Sort(ws)) == ValueBytes(ws)
  {
    if ws != [] {
      var front, last := ws[..|ws| - 1], ws[|ws| - 1];
      SortKeeps(front);
      InsertKeeps(last, Sort(front));
      assert ws == front + [last];
    }
  }

  /** A sorted list is determined by its elements. */
  lemma {:induction false} SortedUnique(a: seq<WriteOp>, b: seq<WriteOp>)
    requires Sorted(a) && Sorted(b) && SameElements(a, b)
    ensures a == b
    decreases |a|
  {
    hide Less;
    assert a != [] ==> a[0] in a;
    assert b != [] ==> b[0] in b;
    if a != [] && b != [] {
      var x, y := a[|a| - 1], b[|b| - 1];
      assert x in b && y in a;
      LessTotal(x.key, y.key);
      var fa, fb := a[..|a| - 1], b[..|b| - 1];
      assert a == fa + [x] && b == fb + [y];
      assert x == y;
      LessTotal(x.key, x.key);
      assert SameElements(fa, fb) by {
        forall w
          ensures w in fa <==> w in fb
        {
          assert (w in a <==> w in fa || w == x) && (w in b <==> w in fb || w == x);
        }
      }
      SortedUnique(fa, fb);
    }
  }

  /** Whatever order the writes arrive in, sorting gives the same list and the same byte total. */
  lemma SortCanonical(a: seq<WriteOp>, b: seq<WriteOp>)
    requires DistinctKeys(a) && DistinctKeys(b) && SameElements(a, b)
    ensures Sort(a) == Sort(b)
    ensures ValueBytes(a) == ValueBytes(b)
  {
    SortKeeps(a);
    SortKeeps(b);
    SortedUnique(Sort(a), Sort(b));
  }

  lemma SortedDistinct(ws: seq<WriteOp>)
    requires Sorted(ws)
    ensures DistinctKeys(ws)
  {
    forall i, j | 0 <= i < j < |ws|
      ensures ws[i].key != ws[j].key
    {
      LessTotal(ws[i].key, ws[i].key);
    }
  }
}
