/** The buffering host a contract runs against, and the harvest of its write log. */
module WasmHost {
  import opened Bytes
  import opened ContractTypes
  import opened ContractStore
  import opened WriteSort
  import opened MapSum

  const MAX_MUTATIONS := 256
  const MAX_MUTATION_BYTES := 1024 * 1024
  const MAX_LOG_BYTES := 64 * 1024

  /** One storage call made by guest code that changes state. */
  datatype HostCall = Put(key: Bytes, value: Bytes) | Del(key: Bytes)

  /** Host state: an immutable snapshot, the buffered changes, and the per-call budget. */
  datatype Host = Host(
    base: Store, sender: u64, height: u64, id: Id,
    written: Store, deleted: set<Bytes>, count: nat, bytes: nat, exceeded: bool)
  {
    predicate Valid() {
      written.Keys !! deleted && count <= MAX_MUTATIONS && bytes <= MAX_MUTATION_BYTES
    }

    /** Read-your-writes lookup. */
    function Read(key: Bytes): Option<Bytes> {
      if key in written then Some(written[key])
      else if key in deleted then None
      else Lookup(base, key)
    }

    predicate Fits(size: nat) {
      count + 1 <= MAX_MUTATIONS && bytes + size <= MAX_MUTATION_BYTES
    }

    /** A call over the budget changes nothing but the flag. */
    function Step(c: HostCall): (h: Host)
      ensures Valid() ==> h.Valid()
      ensures h.base == base && h.sender == sender && h.height == height && h.id == id
    {
      match c
      case Put(k, v) =>
        if !Fits(|k| + |v|) then this.(exceeded := true)
        else this.(written := written[k := v], deleted := deleted - {k}, count := count + 1, bytes := bytes + |k| + |v|)
      case Del(k) =>
        if !Fits(|k|) then this.(exceeded := true)
        else this.(written := written - {k}, deleted := deleted + {k}, count := count + 1, bytes := bytes + |k|)
    }

    function Run(cs: seq<HostCall>): (h: Host)
      ensures Valid() ==> h.Valid()
      ensures h.base == base && h.sender == sender && h.height == height && h.id == id
      decreases |cs|
    {
      if cs == [] then this else Run(cs[..|cs| - 1]).Step(cs[|cs| - 1])
    }

    /** The snapshot with every buffered change applied. */
    function View(): Store { (base - deleted) + written }
  }

  function NewHost(store: Store, sender: u64, height: u64, id: Id): (h: Host)
    ensures h.Valid()
  {
    Host(Snapshot(store, id), sender, height, id, map[], {}, 0, 0, false)
  }

  /** The reference meaning of a call sequence: each call patches a plain map. */
  function Patch(m: Store, cs: seq<HostCall>): Store
    decreases |cs|
  {
    if cs == [] then m
    else
      var before := Patch(m, cs[..|cs| - 1]);
      match cs[|cs| - 1]
      case Put(k, v) => before[k := v]
      case Del(k) => before - {k}
  }

  lemma ReadIsView(h: Host, k: Bytes)
    requires h.Valid()
    ensures h.Read(k) == Lookup(h.View(), k)
  {
  }

  lemma {:induction false} ExceededSticks(h: Host, cs: seq<HostCall>)
    requires h.exceeded
    ensures h.Run(cs).exceeded
  {
    if cs != [] {
      ExceededSticks(h, cs[..|cs| - 1]);
    }
  }

  lemma StepPatches(h: Host, c: HostCall)
    requires h.Valid() && !h.Step(c).exceeded
    ensures h.Step(c).View() == (match c case Put(k, v) => h.View()[k := v] case Del(k) => h.View() - {k})
  {
  }

  /** For every call sequence that stays in budget, the host shows the latest write or delete of every key. */
  lemma {:induction false} HostIsPatchedMap(h: Host, cs: seq<HostCall>)
    requires h.Valid() && !h.Run(cs).exceeded
    ensures h.Run(cs).View() == Patch(h.View(), cs)
    ensures forall k :: h.Run(cs).Read(k) == Lookup(Patch(h.View(), cs), k)
  {
    if cs != [] {
      HostIsPatchedMap(h, cs[..|cs| - 1]);
      StepPatches(h.Run(cs[..|cs| - 1]), cs[|cs| - 1]);
    }
    forall k
      ensures h.Run(cs).Read(k) == Lookup(h.Run(cs).View(), k)
    {
      ReadIsView(h.Run(cs), k);
    }
  }

  // ---- The write log ----

  /** The entry the log must hold for `key`, if the host buffered a change for it. */
  function Entry(h: Host, k: Bytes): WriteOp {
    WriteOp(KeyState(h.id, k), if k in h.written then Some(h.written[k]) else None)
  }

  /** `log` lists the buffered change of each of `keys` once, under the contract's own prefix, in some order. */
  ghost predicate Drained(h: Host, log: seq<WriteOp>, keys: set<Bytes>) {
    && DistinctKeys(log)
    && (forall w :: w in log <==> exists k :: k in keys && w == Entry(h, k))
  }

  ghost predicate IsLog(h: Host, log: seq<WriteOp>) {
    Drained(h, log, h.written.Keys + h.deleted)
  }

  lemma DrainOne(h: Host, log: seq<WriteOp>, keys: set<Bytes>, k: Bytes)
    requires Drained(h, log, keys) && k !in keys
    ensures Drained(h, log + [Entry(h, k)], keys + {k})
  {
    var r := log + [Entry(h, k)];
    forall w | w in log
      ensures w.key != Entry(h, k).key
    {
      var l :| l in keys && w == Entry(h, l);
      if w.key == Entry(h, k).key {
        KeyStateInjective(h.id, l, h.id, k);
      }
    }
    forall w
      ensures w in r <==> exists l :: l in keys + {k} && w == Entry(h, l)
    {
      if w == Entry(h, k) {
        assert k in keys + {k};
      }
    }
  }

  /** Any one log of the host; which one never matters, see HarvestOrderFree. */
  ghost function SomeLog(h: Host): (log: seq<WriteOp>)
    ensures IsLog(h, log)
  {
    LogExists(h, h.written.Keys + h.deleted);
    var log :| Drained(h, log, h.written.Keys + h.deleted);
    log
  }

  lemma {:induction false} LogExists(h: Host, keys: set<Bytes>)
    ensures exists log :: Drained(h, log, keys)
    decreases keys
  {
    if keys == {} {
      assert Drained(h, [], keys);
    } else {
      var k :| k in keys;
      LogExists(h, keys - {k});
      var log :| Drained(h, log, keys - {k});
      DrainOne(h, log, keys - {k}, k);
      assert keys - {k} + {k} == keys;
    }
  }

  /** Total value bytes over the cap reject the run; otherwise the writes come out sorted by key. */
  function Harvest(prior: seq<WriteOp>, exceeded: bool, log: seq<WriteOp>): Result<seq<WriteOp>, ContractError> {
    if exceeded || ValueBytes(log) > MAX_LOG_BYTES then Failure(StorageLimitExceeded)
    else Success(Sort(prior + log))
  }

  /** Neither the verdict nor the sorted writes depend on the order in which the hash maps were drained. */
  lemma HarvestOrderFree(h: Host, prior: seq<WriteOp>, a: seq<WriteOp>, b: seq<WriteOp>)
    requires IsLog(h, a) && IsLog(h, b)
    requires DistinctKeys(prior) && forall w | w in prior :: !IsStateKey(w.key)
    ensures Harvest(prior, h.exceeded, a) == Harvest(prior, h.exceeded, b)
  {
    assert SameElements(a, b);
    SortCanonical(a, b);
    PriorDistinct(h, prior, a);
    PriorDistinct(h, prior, b);
    assert SameElements(prior + a, prior + b);
    SortCanonical(prior + a, prior + b);
  }

  lemma LogKeysAreState(h: Host, log: seq<WriteOp>, w: WriteOp)
    requires IsLog(h, log) && w in log
    ensures IsStateKey(w.key) && StatePrefix(h.id) <= w.key
  {
    var k :| k in h.written.Keys + h.deleted && w == Entry(h, k);
    KeyStateParts(h.id, k);
  }

  lemma PriorDistinct(h: Host, prior: seq<WriteOp>, log: seq<WriteOp>)
    requires IsLog(h, log)
    requires DistinctKeys(prior) && forall w | w in prior :: !IsStateKey(w.key)
    ensures DistinctKeys(prior + log)
  {
    forall i, j | 0 <= i < j < |prior + log|
      ensures (prior + log)[i].key != (prior + log)[j].key
    {
      if i < |prior| <= j {
        assert log[j - |prior|] in log && prior[i] in prior;
        LogKeysAreState(h, log, log[j - |prior|]);
      }
    }
  }

  /**
    Isolation: after a run's harvested writes are applied, the contract's next snapshot is the host's
    final view, every other contract's snapshot is unchanged, and outside the state namespace only the
    engine's own `prior` writes show.
   */
  lemma HarvestIsolated(store: Store, h: Host, prior: seq<WriteOp>, ws: seq<WriteOp>)
    requires h.Valid() && h.base == Snapshot(store, h.id)
    requires DistinctKeys(prior) && forall w | w in prior :: !IsStateKey(w.key)
    requires Harvest(prior, h.exceeded, SomeLog(h)) == Success(ws)
    ensures Snapshot(Apply(store, ws), h.id) == h.View()
    ensures forall id: Id | id != h.id :: Snapshot(Apply(store, ws), id) == Snapshot(store, id)
    ensures forall k | !IsStateKey(k) :: Lookup(Apply(store, ws), k) == Lookup(Apply(store, prior), k)
  {
    var log := SomeLog(h);
    PriorDistinct(h, prior, log);
    SortKeeps(prior + log);
    SortedDistinct(ws);
    forall k
      ensures Lookup(Snapshot(Apply(store, ws), h.id), k) == Lookup(h.View(), k)
    {
      StateEffect(store, h, prior, ws, h.id, k);
    }
    SameLookups(Snapshot(Apply(store, ws), h.id), h.View());
    forall id: Id | id != h.id
      ensures Snapshot(Apply(store, ws), id) == Snapshot(store, id)
    {
      forall k
        ensures Lookup(Snapshot(Apply(store, ws), id), k) == Lookup(Snapshot(store, id), k)
      {
        StateEffect(store, h, prior, ws, id, k);
      }
      SameLookups(Snapshot(Apply(store, ws), id), Snapshot(store, id));
    }
    forall k | !IsStateKey(k)
      ensures Lookup(Apply(store, ws), k) == Lookup(Apply(store, prior), k)
    {
      SystemEffect(store, h, prior, ws, k);
    }
  }

  lemma StateEffect(store: Store, h: Host, prior: seq<WriteOp>, ws: seq<WriteOp>, id: Id, k: Bytes)
    requires h.Valid() && h.base == Snapshot(store, h.id) && DistinctKeys(ws)
    requires forall w | w in prior :: !IsStateKey(w.key)
    requires SameElements(ws, prior + SomeLog(h))
    ensures Lookup(Apply(store, ws), KeyState(id, k)) ==
            if id == h.id then Lookup(h.View(), k) else Lookup(store, KeyState(id, k))
  {
    if id == h.id && k in h.written.Keys + h.deleted {
      var e := Entry(h, k);
      assert e in SomeLog(h);
      assert e in ws;
      ApplyTouched(store, ws, e);
    } else {
      StateUntouched(h, prior, ws, id, k);
      ApplyUntouched(store, ws, KeyState(id, k));
    }
  }

  lemma StateUntouched(h: Host, prior: seq<WriteOp>, ws: seq<WriteOp>, id: Id, k: Bytes)
    requires h.Valid() && (forall w | w in prior :: !IsStateKey(w.key)) && SameElements(ws, prior + SomeLog(h))
    requires id == h.id ==> k !in h.written.Keys + h.deleted
    ensures forall w | w in ws :: w.key != KeyState(id, k)
  {
    hide KeyState;
    KeyStateParts(id, k);
    forall w | w in ws
      ensures w.key != KeyState(id, k)
    {
      assert w in prior || w in SomeLog(h);
      if w in SomeLog(h) {
        var l :| l in h.written.Keys + h.deleted && w == Entry(h, l);
        if w.key == KeyState(id, k) {
          KeyStateInjective(h.id, l, id, k);
        }
      }
    }
  }

  lemma SystemEffect(store: Store, h: Host, prior: seq<WriteOp>, ws: seq<WriteOp>, k: Bytes)
    requires h.Valid() && DistinctKeys(ws) && DistinctKeys(prior) && !IsStateKey(k)
    requires SameElements(ws, prior + SomeLog(h))
    ensures Lookup(Apply(store, ws), k) == Lookup(Apply(store, prior), k)
  {
    if w :| w in prior && w.key == k {
      assert w in ws;
      ApplyTouched(store, ws, w);
      ApplyTouched(store, prior, w);
    } else {
      forall w | w in ws
        ensures w.key != k
      {
        if w in SomeLog(h) {
          LogKeysAreState(h, SomeLog(h), w);
        }
      }
      ApplyUntouched(store, ws, k);
      ApplyUntouched(store, prior, k);
    }
  }

  // ---- Value bytes of a log ----

  function Lens(m: Store): map<Bytes, nat> { map k | k in m :: |m[k]| }

  /** The buffered values are covered by the mutation bytes charged so far. */
  ghost predicate Charged(h: Host) { Sum(Lens(h.written)) <= h.bytes }

  lemma StepCharged(h: Host, c: HostCall)
    requires Charged(h)
    ensures Charged(h.Step(c))
  {
    match c {
      case Put(k, v) =>
        SumUpdate(Lens(h.written), k, |v|);
        assert Lens(h.written[k := v]) == Lens(h.written)[k := |v|];
      case Del(k) =>
        SumDelete(Lens(h.written), k);
        assert Lens(h.written - {k}) == Lens(h.written) - {k};
    }
  }

  lemma Undrain(h: Host, log: seq<WriteOp>, keys: set<Bytes>, k: Bytes)
    requires Drained(h, log, keys) && log != [] && k in keys && log[|log| - 1] == Entry(h, k)
    ensures Drained(h, log[..|log| - 1], keys - {k})
  {
    var front, last := log[..|log| - 1], log[|log| - 1];
    forall w | w in front
      ensures exists l :: l in keys - {k} && w == Entry(h, l)
    {
      assert w in log && w.key != last.key;
      var l :| l in keys && w == Entry(h, l);
      assert l in keys - {k};
    }
    forall w, l | l in keys - {k} && w == Entry(h, l)
      ensures w in front
    {
      assert w in log;
      if w == last {
        KeyStateInjective(h.id, k, h.id, l);
      }
    }
  }

  lemma {:induction false} DrainedBytes(h: Host, log: seq<WriteOp>, keys: set<Bytes>)
    requires Drained(h, log, keys)
    ensures ValueBytes(log) == Sum(map k | k in h.written && k in keys :: |h.written[k]|)
  {
    var lens := map k | k in h.written && k in keys :: |h.written[k]|;
    if log == [] {
      assert forall k | k in keys :: Entry(h, k) in log;
      assert lens == map[];
    } else {
      var front, last := log[..|log| - 1], log[|log| - 1];
      assert last in log && log == front + [last];
      var k :| k in keys && last == Entry(h, k);
      assert Drained(h, front, keys - {k}) by {
        Undrain(h, log, keys, k);
      }
      DrainedBytes(h, front, keys - {k});
      var rest := map l | l in h.written && l in keys - {k} :: |h.written[l]|;
      SumDelete(lens, k);
      assert lens - {k} == rest;
    }
  }

  lemma LogCharged(h: Host)
    requires Charged(h)
    ensures ValueBytes(SomeLog(h)) <= h.bytes
  {
    var keys := h.written.Keys + h.deleted;
    DrainedBytes(h, SomeLog(h), keys);
    assert Lens(h.written) == map k | k in h.written && k in keys :: |h.written[k]|;
  }

  // ---- When a run is refused ----

  /** What a call is charged: its key and, for a write, its value. */
  function Size(c: HostCall): nat {
    match c
    case Put(k, v) => |k| + |v|
    case Del(k) => |k|
  }

  function Sizes(cs: seq<HostCall>): nat
    decreases |cs|
  {
    if cs == [] then 0 else Sizes(cs[..|cs| - 1]) + Size(cs[|cs| - 1])
  }

  /** A run is marked exactly when it makes more than 256 changes or they are charged more than a mebibyte, deletes included. */
  lemma {:induction false} MarkedExactly(h: Host, cs: seq<HostCall>)
    requires h.Valid() && !h.exceeded
    ensures h.Run(cs).exceeded <==> h.count + |cs| > 256 || h.bytes + Sizes(cs) > 1_048_576
    ensures !h.Run(cs).exceeded ==> h.Run(cs).count == h.count + |cs| && h.Run(cs).bytes == h.bytes + Sizes(cs)
  {
    if cs != [] {
      MarkedExactly(h, cs[..|cs| - 1]);
    }
  }

  /** From a host without changes, what an unmarked run leaves written is its calls applied to nothing. */
  lemma {:induction false} WrittenIsPatch(h: Host, cs: seq<HostCall>)
    requires h.Valid() && !h.Run(cs).exceeded && h.written == map[]
    ensures h.Run(cs).written == Patch(map[], cs)
  {
    if cs != [] {
      if h.Run(cs[..|cs| - 1]).exceeded {
        ExceededSticks(h.Run(cs[..|cs| - 1]), [cs[|cs| - 1]]);
      }
      WrittenIsPatch(h, cs[..|cs| - 1]);
    }
  }

  /** A harvest is refused exactly when the run was marked or leaves more than 64 KiB of values written. */
  lemma HarvestExact(h: Host, prior: seq<WriteOp>)
    ensures Harvest(prior, h.exceeded, SomeLog(h)).Success? <==> !h.exceeded && Sum(Lens(h.written)) <= 65_536
    ensures Harvest(prior, h.exceeded, SomeLog(h)).Failure? ==> Harvest(prior, h.exceeded, SomeLog(h)) == Failure(StorageLimitExceeded)
  {
    var keys := h.written.Keys + h.deleted;
    DrainedBytes(h, SomeLog(h), keys);
    assert Lens(h.written) == map k | k in h.written && k in keys :: |h.written[k]|;
  }

  // ---- The host object ----

  class HostObject {
    const base: Store
    const sender: u64
    const height: u64
    const id: Id
    var written: Store
    var deleted: set<Bytes>
    var count: nat
    var bytes: nat
    var exceeded: bool
    /** Events captured by the runtime in emission order. */
    var events: seq<Bytes>

    function State(): Host
      reads this
    {
      Host(base, sender, height, id, written, deleted, count, bytes, exceeded)
    }

    constructor (snapshot: Store, sender: u64, height: u64, id: Id)
      ensures State() == Host(snapshot, sender, height, id, map[], {}, 0, 0, false)
      ensures events == []
    {
      this.base, this.sender, this.height, this.id := snapshot, sender, height, id;
      written, deleted, count, bytes, exceeded, events := map[], {}, 0, 0, false, [];
    }

    method RecordMutation(size: nat) returns (ok: bool)
      modifies this`count, this`bytes, this`exceeded
      ensures ok == old(State()).Fits(size)
      ensures State() == if ok then old(State()).(count := old(count) + 1, bytes := old(bytes) + size)
                         else old(State()).(exceeded := true)
    {
      var nextCount, nextBytes := count + 1, bytes + size;
      if nextCount > MAX_MUTATIONS || nextBytes > MAX_MUTATION_BYTES {
        exceeded := true;
        return false;
      }
      count, bytes := nextCount, nextBytes;
      return true;
    }

    method StorageRead(key: Bytes) returns (r: Option<Bytes>)
      ensures r == State().Read(key)
    {
      if key in written {
        return Some(written[key]);
      }
      if key in deleted {
        return None;
      }
      r := Lookup(base, key);
    }

    method StorageWrite(key: Bytes, value: Bytes)
      modifies this
      ensures State() == old(State()).Step(Put(key, value)) && events == old(events)
    {
      var ok := RecordMutation(|key| + |value|);
      if !ok {
        return;
      }
      deleted := deleted - {key};
      written := written[key := value];
    }

    method StorageDelete(key: Bytes)
      modifies this
      ensures State() == old(State()).Step(Del(key)) && events == old(events)
    {
      var ok := RecordMutation(|key|);
      if !ok {
        return;
      }
      written := written - {key};
      deleted := deleted + {key};
    }

    method EmitEvent(e: Bytes)
      modifies this`events
      ensures events == old(events) + [e]
    {
      events := events + [e];
    }

    /** Drains both buffers in whatever order the hash maps yield. */
    method TakeLog() returns (log: seq<WriteOp>)
      requires State().Valid()
      modifies this`written, this`deleted
      ensures IsLog(old(State()), log)
      ensures written == map[] && deleted == {}
    {
      ghost var h := State();
      ghost var done: set<Bytes> := {};
      log := [];
      while written.Keys != {}
        invariant done !! written.Keys && done + written.Keys == h.written.Keys && deleted == h.deleted
        invariant forall k | k in written :: written[k] == h.written[k]
        invariant Drained(h, log, done)
        decreases written.Keys
      {
        var k :| k in written.Keys;
        DrainOne(h, log, done, k);
        log := log + [WriteOp(KeyState(id, k), Some(written[k]))];
        written := written - {k};
        done := done + {k};
      }
      while deleted != {}
        invariant done !! deleted && done + deleted == h.written.Keys + h.deleted && deleted <= h.deleted
        invariant written == map[]
        invariant Drained(h, log, done)
        decreases deleted
      {
        var k :| k in deleted;
        DrainOne(h, log, done, k);
        log := log + [WriteOp(KeyState(id, k), None)];
        deleted := deleted - {k};
        done := done + {k};
      }
    }
  }

  /** Walks the log in the order it was drained, adding up value bytes and refusing as soon as they pass the cap. */
  method HarvestWasm(prior: seq<WriteOp>, host: HostObject) returns (r: Result<seq<WriteOp>, ContractError>)
    requires host.State().Valid()
    requires DistinctKeys(prior) && forall w | w in prior :: !IsStateKey(w.key)
    modifies host
    ensures r == Harvest(prior, old(host.exceeded), SomeLog(old(host.State())))
  {
    ghost var h := host.State();
    if host.exceeded {
      return Failure(StorageLimitExceeded);
    }
    var log := host.TakeLog();
    HarvestOrderFree(h, prior, log, SomeLog(h));
    var total, writes := 0, prior;
    for i := 0 to |log|
      invariant total == ValueBytes(log[..i]) <= MAX_LOG_BYTES
      invariant writes == prior + log[..i]
    {
      assert log[..i + 1][..i] == log[..i];
      total := total + ValueLen(log[i]);
      if total > MAX_LOG_BYTES {
        ValueBytesGrows(log, i + 1);
        return Failure(StorageLimitExceeded);
      }
      writes := writes + [log[i]];
    }
    assert log[..|log|] == log;
    r := Success(Sort(writes));
  }

  lemma {:induction false} ValueBytesGrows(ws: seq<WriteOp>, i: nat)
    requires i <= |ws|
    ensures ValueBytes(ws[..i]) <= ValueBytes(ws)
    decreases |ws| - i
  {
    if i < |ws| {
      assert ws[..i + 1][..i] == ws[..i];
      ValueBytesGrows(ws, i + 1);
    } else {
      assert ws[..i] == ws;
    }
  }
}
