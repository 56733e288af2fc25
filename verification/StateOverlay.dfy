/** The execution overlay with an incremental byte count, against the map it stands for. */
module StateOverlay {
  import opened Bytes
  import opened ContractStore
  import opened MapSum
  import opened WasmHost

  const MAX_KEY := 1024
  const MAX_VALUE := 64 * 1024

  /** Value bytes held by a store. */
  ghost function Total(m: Store): nat { Sum(Lens(m)) }

  datatype Overlay = Overlay(writes: Store, deletes: set<Bytes>, used: int, max: nat, exceeded: bool) {
    predicate Valid() { writes.Keys !! deletes }

    function Read(base: Store, k: Bytes): Option<Bytes> {
      if k in writes then Some(writes[k]) else if k in deletes then None else Lookup(base, k)
    }

    function OldLen(base: Store, k: Bytes): nat {
      match Read(base, k) case Some(v) => |v| case None => 0
    }

    /** Over the cap the value is recorded, but not charged, and the run is marked. */
    function Write(base: Store, k: Bytes, v: Bytes): (Overlay, bool) {
      if k == [] || |k| > MAX_KEY || |v| > MAX_VALUE then (this.(exceeded := true), false)
      else
        var total := used + (|v| - OldLen(base, k));
        var recorded := this.(writes := writes[k := v], deletes := deletes - {k});
        if total < 0 || total > max then (recorded.(exceeded := true), false)
        else (recorded.(used := total), true)
    }

    function Delete(base: Store, k: Bytes): Overlay {
      var total := used - OldLen(base, k);
      this.(writes := writes - {k}, deletes := deletes + {k}, used := if total < 0 then 0 else total)
    }

    function Step(base: Store, c: HostCall): Overlay {
      match c
      case Put(k, v) => Write(base, k, v).0
      case Del(k) => Delete(base, k)
    }

    function View(base: Store): Store { (base - deletes) + writes }
  }

  function New(max: nat, used: nat): Overlay { Overlay(map[], {}, used, max, false) }

  ghost function Run(base: Store, max: nat, cs: seq<HostCall>): Overlay
    decreases |cs|
  {
    if cs == [] then New(max, Total(base)) else Run(base, max, cs[..|cs| - 1]).Step(base, cs[|cs| - 1])
  }

  lemma PatchTotal(m: Store, c: HostCall)
    ensures Total(Patch(m, [c])) == Total(m) - (match Lookup(m, c.key) case Some(v) => |v| case None => 0)
                                   + (if c.Put? then |c.value| else 0)
  {
    assert [c][..0] == [] && Patch(m, []) == m;
    match c {
      case Put(k, v) =>
        SumUpdate(Lens(m), k, |v|);
        assert Lens(m[k := v]) == Lens(m)[k := |v|];
      case Del(k) =>
        SumDelete(Lens(m), k);
        assert Lens(m - {k}) == Lens(m) - {k};
    }
  }

  lemma PatchLast(m: Store, cs: seq<HostCall>)
    requires cs != []
    ensures Patch(m, cs) == Patch(Patch(m, cs[..|cs| - 1]), [cs[|cs| - 1]])
  {
    var c := cs[|cs| - 1];
    assert [c][..0] == [] && Patch(Patch(m, cs[..|cs| - 1]), []) == Patch(m, cs[..|cs| - 1]);
  }

  /** A call that the cap or a size limit forbids, judged on the plain map reached so far. */
  ghost predicate Forbidden(m: Store, max: nat, c: HostCall) {
    && c.Put?
    && (c.key == [] || |c.key| > 1_024 || |c.value| > 65_536 || Total(Patch(m, [c])) > max)
  }

  /** While the mark is unset the overlay is the patched map and its counter the exact byte total. */
  ghost predicate Exact(o: Overlay, base: Store, m: Store) {
    o.Valid() && o.View(base) == m && o.used == Total(m)
  }

  /** One step from an exact overlay: marked precisely when forbidden, exact otherwise; neither clamp is ever needed. */
  lemma StepExact(o: Overlay, base: Store, m: Store, c: HostCall)
    requires Exact(o, base, m) && !o.exceeded
    ensures o.Step(base, c).exceeded <==> Forbidden(m, o.max, c)
    ensures !Forbidden(m, o.max, c) ==> Exact(o.Step(base, c), base, Patch(m, [c]))
    ensures o.used + (if c.Put? then |c.value| else 0) - o.OldLen(base, c.key) >= 0
  {
    hide Total, Patch;
    PatchTotal(m, c);
    PatchOne(m, c);
    assert o.Read(base, c.key) == Lookup(m, c.key);
    match c {
      case Put(k, v) =>
        assert ((base - (o.deletes - {k})) + o.writes[k := v]) == m[k := v];
      case Del(k) =>
        assert ((base - (o.deletes + {k})) + (o.writes - {k})) == m - {k};
    }
  }

  lemma PatchOne(m: Store, c: HostCall)
    ensures Patch(m, [c]) == if c.Put? then m[c.key := c.value] else m - {c.key}
  {
    assert [c][..0] == [] && Patch(m, []) == m;
  }

  /** Over the cap a value is readable afterwards but not charged; the call is refused and the run marked. */
  lemma OverCap(o: Overlay, base: Store, k: Bytes, v: Bytes)
    requires o.Valid() && 0 < |k| <= 1_024 && |v| <= 65_536 && o.used + |v| - o.OldLen(base, k) > o.max
    ensures var (p, ok) := o.Write(base, k, v);
            !ok && p.exceeded && p.used == o.used && p.Read(base, k) == Some(v) && forall x | x != k :: p.Read(base, x) == o.Read(base, x)
  {
  }

  lemma {:induction false} RunKeepsShape(base: Store, max: nat, cs: seq<HostCall>)
    ensures Run(base, max, cs).Valid() && Run(base, max, cs).max == max
  {
    if cs != [] {
      RunKeepsShape(base, max, cs[..|cs| - 1]);
    }
  }

  /** Once set, the mark stays set. */
  lemma {:induction false} MarkSticks(base: Store, max: nat, cs: seq<HostCall>, n: nat)
    requires n <= |cs| && Run(base, max, cs[..n]).exceeded
    ensures Run(base, max, cs).exceeded
    decreases |cs| - n
  {
    if n == |cs| {
      assert cs[..n] == cs;
    } else {
      assert cs[..n + 1][..n] == cs[..n];
      MarkSticks(base, max, cs, n + 1);
    }
  }

  /** Every unmarked run: the view and the counter are those of the plain map, and a base within the cap stays within it. */
  lemma {:induction false} RunExact(base: Store, max: nat, cs: seq<HostCall>)
    requires !Run(base, max, cs).exceeded
    ensures Exact(Run(base, max, cs), base, Patch(base, cs))
    ensures Total(base) <= max ==> Run(base, max, cs).used <= max
  {
    if cs == [] {
      assert New(max, Total(base)).View(base) == base;
    } else {
      var front, c := cs[..|cs| - 1], cs[|cs| - 1];
      if Run(base, max, front).exceeded {
        MarkSticks(base, max, cs, |cs| - 1);
      }
      RunExact(base, max, front);
      RunKeepsShape(base, max, front);
      StepExact(Run(base, max, front), base, Patch(base, front), c);
      PatchLast(base, cs);
      PatchTotal(Patch(base, front), c);
    }
  }

  lemma MarkedStep(base: Store, max: nat, cs: seq<HostCall>)
    requires cs != []
    ensures var front, c := cs[..|cs| - 1], cs[|cs| - 1];
            Run(base, max, cs).exceeded <==> Run(base, max, front).exceeded || Forbidden(Patch(base, front), max, c)
  {
    hide Patch, Forbidden, Exact;
    var front, c := cs[..|cs| - 1], cs[|cs| - 1];
    if Run(base, max, front).exceeded {
      MarkSticks(base, max, cs, |front|);
    } else {
      RunExact(base, max, front);
      RunKeepsShape(base, max, front);
      StepExact(Run(base, max, front), base, Patch(base, front), c);
    }
  }

  /** Call `i` is forbidden on the plain map the calls before it reach. */
  ghost predicate ForbiddenAt(base: Store, max: nat, cs: seq<HostCall>, i: nat) {
    i < |cs| && Forbidden(Patch(base, cs[..i]), max, cs[i])
  }

  /** A run is marked exactly when some call in it was forbidden on the map reached at that point. */
  lemma {:induction false} MarkedExactly(base: Store, max: nat, cs: seq<HostCall>)
    ensures Run(base, max, cs).exceeded <==> exists i | 0 <= i < |cs| :: ForbiddenAt(base, max, cs, i)
  {
    hide Patch, Forbidden;
    if cs != [] {
      hide Run;
      var n := |cs| - 1;
      var front := cs[..n];
      MarkedExactly(base, max, front);
      MarkedStep(base, max, cs);
      forall i | 0 <= i < n
        ensures ForbiddenAt(base, max, front, i) <==> ForbiddenAt(base, max, cs, i)
      {
        assert front[..i] == cs[..i];
      }
      assert ForbiddenAt(base, max, cs, n) <==> Forbidden(Patch(base, front), max, cs[n]);
    }
  }

  // ---- Committing ----

  /** The commit list: every buffered write, then every buffered delete, each group in any order. */
  ghost predicate IsCommit(o: Overlay, ws: seq<WriteOp>) {
    && DistinctKeys(ws)
    && (forall w :: w in ws <==> (w.key in o.writes && w.value == Some(o.writes[w.key])) || (w.key in o.deletes && w.value == None))
  }

  /** Committing an unmarked run leaves the store exactly as the guest last saw it. */
  lemma CommitIsView(base: Store, max: nat, cs: seq<HostCall>, ws: seq<WriteOp>)
    requires !Run(base, max, cs).exceeded && IsCommit(Run(base, max, cs), ws)
    ensures Apply(base, ws) == Patch(base, cs)
    ensures forall k :: Run(base, max, cs).Read(base, k) == Lookup(Apply(base, ws), k)
  {
    var o := Run(base, max, cs);
    RunExact(base, max, cs);
    forall k
      ensures Lookup(Apply(base, ws), k) == Lookup(o.View(base), k) == o.Read(base, k)
    {
      if k in o.writes {
        ApplyTouched(base, ws, WriteOp(k, Some(o.writes[k])));
      } else if k in o.deletes {
        ApplyTouched(base, ws, WriteOp(k, None));
      } else {
        ApplyUntouched(base, ws, k);
      }
    }
    SameLookups(Apply(base, ws), Patch(base, cs));
  }

  // ---- The overlay object ----

  lemma CommitNone(o: Overlay)
    ensures IsCommit(o.(writes := map[], deletes := {}), [])
  {
  }

  lemma CommitOne(o: Overlay, ws: seq<WriteOp>, k: Bytes, v: Option<Bytes>)
    requires IsCommit(o, ws) && k !in o.writes && k !in o.deletes
    ensures v.Some? ==> IsCommit(o.(writes := o.writes[k := v.value]), ws + [WriteOp(k, v)])
    ensures v.None? ==> IsCommit(o.(deletes := o.deletes + {k}), ws + [WriteOp(k, v)])
  {
    assert forall w :: w in ws + [WriteOp(k, v)] <==> w in ws || w == WriteOp(k, v);
    assert forall w | w in ws :: w.key != k;
    assert DistinctKeys(ws + [WriteOp(k, v)]);
  }

  class ContractStateOverlay {
    var writes: Store
    var deletes: set<Bytes>
    var used: int
    const max: nat
    var exceeded: bool

    function State(): Overlay
      reads this
    {
      Overlay(writes, deletes, used, max, exceeded)
    }

    constructor (max: nat, used: nat)
      ensures State() == New(max, used)
    {
      this.max := max;
      this.used, writes, deletes, exceeded := used, map[], {}, false;
    }

    method StorageRead(base: Store, key: Bytes) returns (r: Option<Bytes>)
      ensures r == State().Read(base, key)
    {
      if key in writes {
        return Some(writes[key]);
      }
      if key in deletes {
        return None;
      }
      r := Lookup(base, key);
    }

    method StorageWrite(base: Store, key: Bytes, value: Bytes) returns (ok: bool)
      modifies this
      ensures (State(), ok) == old(State()).Write(base, key, value)
    {
      if key == [] || |key| > MAX_KEY || |value| > MAX_VALUE {
        exceeded := true;
        return false;
      }
      var baseLen := if key in base then |base[key]| else 0;
      var was := if key in writes then |writes[key]| else if key in deletes then 0 else baseLen;
      var total := used + (|value| - was);
      if total < 0 || total > max {
        exceeded := true;
        writes := writes[key := value];
        deletes := deletes - {key};
        return false;
      }
      writes := writes[key := value];
      deletes := deletes - {key};
      used := total;
      return true;
    }

    method StorageDelete(base: Store, key: Bytes)
      modifies this
      ensures State() == old(State()).Delete(base, key)
    {
      var baseLen := if key in base then |base[key]| else 0;
      var was := if key in writes then |writes[key]| else if key in deletes then 0 else baseLen;
      var total := used - was;
      writes := writes - {key};
      deletes := deletes + {key};
      used := if total < 0 then 0 else total;
    }

    /** Writes first, then deletes, each in the hash map's own order. */
    method TakeLog() returns (log: seq<WriteOp>)
      requires State().Valid()
      modifies this`writes, this`deletes
      ensures IsCommit(old(State()), log)
      ensures writes == map[] && deletes == {}
    {
      hide IsCommit;
      ghost var o := State();
      CommitNone(o);
      ghost var done := o.(writes := map[], deletes := {});
      log := [];
      while writes.Keys != {}
        invariant done == o.(writes := done.writes, deletes := done.deletes)
        invariant deletes == o.deletes && done.deletes == {} && done.writes.Keys !! writes.Keys && o.writes == done.writes + writes
        invariant IsCommit(done, log)
        decreases writes.Keys
      {
        var k :| k in writes.Keys;
        CommitOne(done, log, k, Some(writes[k]));
        log := log + [WriteOp(k, Some(writes[k]))];
        done := done.(writes := done.writes[k := writes[k]]);
        writes := writes - {k};
      }
      while deletes != {}
        invariant done == o.(writes := done.writes, deletes := done.deletes)
        invariant writes == map[] && done.writes == o.writes && done.deletes !! deletes && o.deletes == done.deletes + deletes
        invariant IsCommit(done, log)
        decreases deletes
      {
        var k :| k in deletes;
        CommitOne(done, log, k, None);
        log := log + [WriteOp(k, None)];
        done := done.(deletes := done.deletes + {k});
        deletes := deletes - {k};
      }
    }
  }
}
