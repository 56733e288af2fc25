/** The validator set: admin steps, pending activations and leader rotation. */
module Validators {
  import opened Bytes
  import opened Operations
  import opened PayloadCodec

  const U64_MAX := 0xFFFF_FFFF_FFFF_FFFF

  datatype Status = PendingActivation(height: u64) | Active | Inactive
  datatype Info = Info(id: u64, key: Key, status: Status)

  datatype SetError =
    | InvalidAdminSignature
    | ValidatorNotFound
    | NoActiveValidators
    | CannotRemoveLastActive
    | InvalidActivation

  /** The state of a validator set; the id counter is a wrapping `u64`. */
  datatype Roster = Roster(admin: Key, validators: seq<Info>, nextId: u64)

  // ---- Views of the list ----

  function Actives(vs: seq<Info>): seq<Info> {
    if vs == [] then []
    else (if vs[0].status.Active? then [vs[0]] else []) + Actives(vs[1..])
  }

  function Without(vs: seq<Info>, id: u64): seq<Info> {
    if vs == [] then []
    else (if vs[0].id != id then [vs[0]] else []) + Without(vs[1..], id)
  }

  /** The first position holding the id, or the length. */
  function Find(vs: seq<Info>, id: u64): (i: nat)
    ensures i <= |vs| && (i < |vs| ==> vs[i].id == id) && forall j | 0 <= j < i :: vs[j].id != id
  {
    if vs == [] then 0 else if vs[0].id == id then 0 else 1 + Find(vs[1..], id)
  }

  predicate ActiveAt(vs: seq<Info>, i: nat) { i < |vs| && vs[i].status.Active? }
  predicate HasActive(vs: seq<Info>) { exists i | 0 <= i < |vs| :: ActiveAt(vs, i) }

  predicate OnlyActive(vs: seq<Info>, i: nat) {
    ActiveAt(vs, i) && forall j | 0 <= j < |vs| && j != i :: !ActiveAt(vs, j)
  }

  predicate DistinctIds(vs: seq<Info>) { forall i, j | 0 <= i < j < |vs| :: vs[i].id != vs[j].id }

  /** Ids are distinct and below the counter. */
  predicate Sound(r: Roster) {
    DistinctIds(r.validators) && forall i | 0 <= i < |r.validators| :: r.validators[i].id < r.nextId
  }

  function Ids(vs: seq<Info>): set<u64> { set v | v in vs :: v.id }

  function StatusFor(activation: u64, current: u64): Status {
    if activation <= current then Active else PendingActivation(activation)
  }

  // ---- Steps ----

  function Append(r: Roster, key: Key, activation: u64, current: u64): Roster {
    Roster(r.admin, r.validators + [Info(r.nextId, key, StatusFor(activation, current))], (r.nextId + 1) % 0x1_0000_0000_0000_0000)
  }

  function WithStatus(r: Roster, i: nat, s: Status): Roster
    requires i < |r.validators|
  {
    r.(validators := r.validators[i := r.validators[i].(status := s)])
  }

  predicate LastActive(vs: seq<Info>, id: u64) {
    |Actives(vs)| <= 1 && exists i | 0 <= i < |vs| :: vs[i].id == id && ActiveAt(vs, i)
  }

  function Administer(r: Roster, a: AdminOp, current: u64): Result<Roster, SetError> {
    match a
    case Add(key, activation) => Success(Append(r, key, activation, current))
    case Remove(id, activation) =>
      if activation > current then Failure(InvalidActivation)
      else if Find(r.validators, id) == |r.validators| then Failure(ValidatorNotFound)
      else if LastActive(r.validators, id) then Failure(CannotRemoveLastActive)
      else Success(r.(validators := Without(r.validators, id)))
    case Activate(id, activation) =>
      var i := Find(r.validators, id);
      if i == |r.validators| then Failure(ValidatorNotFound)
      else Success(WithStatus(r, i, StatusFor(activation, current)))
    case Deactivate(id, activation) =>
      if activation > current then Failure(InvalidActivation) else
      var i := Find(r.validators, id);
      if i == |r.validators| then Failure(ValidatorNotFound)
      else if ActiveAt(r.validators, i) && |Actives(r.validators)| <= 1 then Failure(CannotRemoveLastActive)
      else Success(WithStatus(r, i, Inactive))
  }

  predicate Authorized(verify: Verify, admin: Key, op: Operation) {
    exists i | 0 <= i < |op.signatures| :: verify(op.signatures[i], admin, PutStripped(op, []))
  }

  function ApplyAdmin(verify: Verify, r: Roster, op: Operation, current: u64): Result<Roster, SetError> {
    if !op.payload.ValidatorAdmin? || !Authorized(verify, r.admin, op) then Failure(InvalidAdminSignature)
    else Administer(r, op.payload.admin, current)
  }

  function Activated(v: Info, current: u64): Info {
    if v.status.PendingActivation? && current >= v.status.height then v.(status := Active) else v
  }

  function ProcessPending(r: Roster, current: u64): Roster {
    r.(validators := seq(|r.validators|, i requires 0 <= i < |r.validators| => Activated(r.validators[i], current)))
  }

  function RemoveDirect(r: Roster, id: u64): Result<Roster, SetError> {
    if LastActive(r.validators, id) then Failure(CannotRemoveLastActive)
    else if Find(r.validators, id) == |r.validators| then Failure(ValidatorNotFound)
    else Success(r.(validators := Without(r.validators, id)))
  }

  function SetStatusDirect(r: Roster, id: u64, s: Status): Result<Roster, SetError> {
    var i := Find(r.validators, id);
    if i == |r.validators| then Failure(ValidatorNotFound) else Success(WithStatus(r, i, s))
  }

  // ---- Facts about the filters ----

  lemma {:induction false} ActivesCount(vs: seq<Info>)
    ensures |Actives(vs)| > 0 <==> HasActive(vs)
    ensures forall i, j | 0 <= i < j < |vs| && ActiveAt(vs, i) && ActiveAt(vs, j) :: |Actives(vs)| >= 2
  {
    if vs != [] {
      var t := vs[1..];
      ActivesCount(t);
      if HasActive(t) {
        var k :| 0 <= k < |t| && ActiveAt(t, k);
        assert ActiveAt(vs, k + 1);
      }
      assert |Actives(vs)| == (if ActiveAt(vs, 0) then 1 else 0) + |Actives(t)|;
      if HasActive(vs) && !ActiveAt(vs, 0) {
        var k :| 0 <= k < |vs| && ActiveAt(vs, k);
        assert ActiveAt(t, k - 1);
      }
      forall j | 0 < j < |vs| && ActiveAt(vs, 0) && ActiveAt(vs, j) ensures |Actives(vs)| >= 2 {
        assert ActiveAt(t, j - 1);
      }
      forall i, j | 0 < i < j < |vs| && ActiveAt(vs, i) && ActiveAt(vs, j) ensures |Actives(vs)| >= 2 {
        assert ActiveAt(t, i - 1) && ActiveAt(t, j - 1);
      }
    }
  }

  lemma {:induction false} OneActive(vs: seq<Info>, i: nat)
    requires OnlyActive(vs, i)
    ensures |Actives(vs)| == 1
  {
    var t := vs[1..];
    ActivesCount(vs);
    if i == 0 {
      ActivesCount(t);
      forall k | 0 <= k < |t| ensures !ActiveAt(t, k) {
        assert ActiveAt(t, k) == ActiveAt(vs, k + 1);
      }
    } else {
      assert !ActiveAt(vs, 0);
      forall j | 0 <= j < |t| && j != i - 1 ensures !ActiveAt(t, j) {
        assert ActiveAt(t, j) == ActiveAt(vs, j + 1);
      }
      OneActive(t, i - 1);
    }
  }

  /** Removal keeps exactly the other validators, and keeps ids distinct. */
  lemma {:induction false} WithoutExact(vs: seq<Info>, id: u64)
    ensures forall v :: v in Without(vs, id) <==> v in vs && v.id != id
    ensures DistinctIds(vs) ==> DistinctIds(Without(vs, id))
  {
    if vs != [] {
      var t := vs[1..];
      WithoutExact(t, id);
      assert vs == [vs[0]] + t;
      if DistinctIds(vs) {
        assert DistinctIds(t) by {
          forall i, j | 0 <= i < j < |t| ensures t[i].id != t[j].id {
            assert t[i] == vs[i + 1] && t[j] == vs[j + 1];
          }
        }
        var w := Without(t, id);
        forall k | 0 <= k < |w| ensures w[k].id != vs[0].id {
          assert w[k] in t;
          var m :| 0 <= m < |t| && t[m] == w[k];
          assert vs[m + 1] == w[k];
        }
      }
    }
  }

  lemma RosterIds(r: Roster, i: nat, s: Status)
    requires i < |r.validators|
    ensures Sound(r) ==> Sound(WithStatus(r, i, s))
    ensures Ids(WithStatus(r, i, s).validators) == Ids(r.validators)
  {
    var a, b := r.validators, WithStatus(r, i, s).validators;
    forall id | id in Ids(b) ensures id in Ids(a) {
      var j :| 0 <= j < |b| && b[j].id == id;
      assert a[j] in a && a[j].id == id;
    }
    forall id | id in Ids(a) ensures id in Ids(b) {
      var j :| 0 <= j < |a| && a[j].id == id;
      assert b[j] in b && b[j].id == id;
    }
  }

  // ---- Runs ----

  datatype Event =
    | Admin(op: Operation, height: u64)
    | Pending(height: u64)
    | AddDirect(key: Key, activation: u64, height: u64)
    | Drop(id: u64)
    | SetStatus(id: u64, status: Status)

  function Outcome(verify: Verify, r: Roster, e: Event): Result<Roster, SetError> {
    match e
    case Admin(op, height) => ApplyAdmin(verify, r, op, height)
    case Pending(height) => Success(ProcessPending(r, height))
    case AddDirect(key, activation, height) => Success(Append(r, key, activation, height))
    case Drop(id) => RemoveDirect(r, id)
    case SetStatus(id, status) => SetStatusDirect(r, id, status)
  }

  /** A failed step changes nothing. */
  function Next(verify: Verify, r: Roster, e: Event): Roster {
    var o := Outcome(verify, r, e);
    if o.Success? then o.value else r
  }

  /** The step hands out an id. */
  predicate Issues(verify: Verify, r: Roster, e: Event) {
    e.AddDirect? || (e.Admin? && e.op.payload.ValidatorAdmin? && e.op.payload.admin.Add? && Authorized(verify, r.admin, e.op))
  }

  function After(verify: Verify, r: Roster, es: seq<Event>): Roster
    decreases |es|
  {
    if es == [] then r else After(verify, Next(verify, r, es[0]), es[1..])
  }

  function Issued(verify: Verify, r: Roster, es: seq<Event>): seq<u64>
    decreases |es|
  {
    if es == [] then []
    else (if Issues(verify, r, es[0]) then [r.nextId] else []) + Issued(verify, Next(verify, r, es[0]), es[1..])
  }

  /** An add keeps ids distinct and below the counter exactly when the counter is not at its maximum. */
  lemma AppendSound(r: Roster, key: Key, activation: u64, current: u64)
    requires Sound(r)
    ensures Sound(Append(r, key, activation, current)) <==> r.nextId < U64_MAX
    ensures Ids(Append(r, key, activation, current).validators) == Ids(r.validators) + {r.nextId}
  {
    var s := Append(r, key, activation, current);
    var last := |r.validators|;
    assert s.validators[last].id == r.nextId;
    forall i | 0 <= i < last ensures s.validators[i] == r.validators[i] {
    }
  }

  lemma WithoutSound(r: Roster, id: u64)
    requires Sound(r)
    ensures Sound(r.(validators := Without(r.validators, id)))
    ensures Ids(Without(r.validators, id)) == Ids(r.validators) - {id}
  {
    WithoutExact(r.validators, id);
    var w := Without(r.validators, id);
    forall i | 0 <= i < |w| ensures w[i].id < r.nextId {
      assert w[i] in r.validators;
    }
  }

  lemma PendingSound(r: Roster, current: u64)
    requires Sound(r)
    ensures Sound(ProcessPending(r, current))
    ensures Ids(ProcessPending(r, current).validators) == Ids(r.validators)
  {
    var a, b := r.validators, ProcessPending(r, current).validators;
    assert forall i | 0 <= i < |a| :: b[i].id == a[i].id;
    forall id | id in Ids(a) ensures id in Ids(b) {
      var j :| 0 <= j < |a| && a[j].id == id;
      assert b[j] in b;
    }
    forall id | id in Ids(b) ensures id in Ids(a) {
      var j :| 0 <= j < |b| && b[j].id == id;
      assert a[j] in a;
    }
  }

  lemma StepSound(verify: Verify, r: Roster, e: Event)
    requires Sound(r) && (Issues(verify, r, e) ==> r.nextId < U64_MAX)
    ensures Sound(Next(verify, r, e))
    ensures Next(verify, r, e).nextId == r.nextId + if Issues(verify, r, e) then 1 else 0
    ensures Ids(Next(verify, r, e).validators) <= Ids(r.validators) + if Issues(verify, r, e) then {r.nextId} else {}
  {
    hide Sound, Without, Actives, LastActive, Authorized, ProcessPending, Ids;
    var vs := r.validators;
    match e
    case Pending(height) => PendingSound(r, height); assert ProcessPending(r, height).nextId == r.nextId by { PendingCounter(r, height); }
    case AddDirect(key, activation, height) => AppendSound(r, key, activation, height);
    case Drop(id) => WithoutSound(r, id);
    case SetStatus(id, s) =>
      if Find(vs, id) < |vs| {
        RosterIds(r, Find(vs, id), s);
      }
    case Admin(op, height) =>
      if op.payload.ValidatorAdmin? {
        match op.payload.admin
        case Add(key, activation) => AppendSound(r, key, activation, height);
        case Remove(id, _) => WithoutSound(r, id);
        case Activate(id, activation) =>
          if Find(vs, id) < |vs| {
            RosterIds(r, Find(vs, id), StatusFor(activation, height));
          }
        case Deactivate(id, _) =>
          if Find(vs, id) < |vs| {
            RosterIds(r, Find(vs, id), Inactive);
          }
      }
  }

  lemma PendingCounter(r: Roster, current: u64)
    ensures ProcessPending(r, current).nextId == r.nextId
  {
  }

  /**
   * Over every run that does not exhaust the counter, ids stay distinct and below the counter, the ids handed out are
   * consecutive from the counter on, and nobody is a member who was not there at the start or added since.
   */
  lemma {:induction false} RunSound(verify: Verify, r: Roster, es: seq<Event>)
    requires Sound(r) && r.nextId + |Issued(verify, r, es)| <= U64_MAX
    ensures Sound(After(verify, r, es))
    ensures After(verify, r, es).nextId == r.nextId + |Issued(verify, r, es)|
    ensures forall k | 0 <= k < |Issued(verify, r, es)| :: Issued(verify, r, es)[k] == r.nextId + k
    ensures forall id | id in Ids(After(verify, r, es).validators) :: id in Ids(r.validators) || id in Issued(verify, r, es)
    decreases |es|
  {
    hide Sound, Outcome, Issues, Ids;
    if es != [] {
      var s := Next(verify, r, es[0]);
      StepSound(verify, r, es[0]);
      RunSound(verify, s, es[1..]);
    }
  }

  /** A member that has left, or an id that was issued and is gone, never comes back. */
  lemma GoneStaysGone(verify: Verify, r: Roster, es: seq<Event>, id: u64)
    requires Sound(r) && r.nextId + |Issued(verify, r, es)| <= U64_MAX
    requires id < r.nextId && id !in Ids(r.validators)
    ensures id !in Ids(After(verify, r, es).validators)
    ensures id !in Issued(verify, r, es)
  {
    hide Sound, After, Issued, Ids;
    RunSound(verify, r, es);
  }

  /** At the end of its range the counter wraps, and the second add from there repeats an id. */
  lemma CounterWraps(r: Roster, key: Key)
    requires Sound(r) && r.nextId == U64_MAX && 0 in Ids(r.validators)
    ensures !DistinctIds(Append(Append(r, key, 0, 0), key, 0, 0).validators)
  {
    var s := Append(Append(r, key, 0, 0), key, 0, 0).validators;
    var i :| 0 <= i < |r.validators| && r.validators[i].id == 0;
    assert s[i].id == 0 && s[|s| - 1].id == 0;
  }

  // ---- Somebody stays active ----

  /** The step moves the only active validator out of the active set. */
  predicate Parks(verify: Verify, r: Roster, e: Event) {
    var vs := r.validators;
    (e.Admin? && e.op.payload.ValidatorAdmin? && e.op.payload.admin.Activate? && Authorized(verify, r.admin, e.op)
     && e.op.payload.admin.activationHeight > e.height && OnlyActive(vs, Find(vs, e.op.payload.admin.validatorId)))
    || (e.SetStatus? && !e.status.Active? && OnlyActive(vs, Find(vs, e.id)))
  }

  lemma StatusActive(r: Roster, i: nat, s: Status)
    requires i < |r.validators| && HasActive(r.validators)
    ensures HasActive(WithStatus(r, i, s).validators) <==> s.Active? || !OnlyActive(r.validators, i)
  {
    var a, b := r.validators, WithStatus(r, i, s).validators;
    assert forall j | 0 <= j < |a| && j != i :: ActiveAt(b, j) == ActiveAt(a, j);
    assert ActiveAt(b, i) == s.Active?;
    if !s.Active? && !OnlyActive(a, i) {
      var k :| 0 <= k < |a| && ActiveAt(a, k);
      if k == i {
        var j :| 0 <= j < |a| && j != i && ActiveAt(a, j);
        assert ActiveAt(b, j);
      } else {
        assert ActiveAt(b, k);
      }
    }
  }

  lemma WithoutActive(vs: seq<Info>, id: u64)
    requires DistinctIds(vs) && HasActive(vs) && !LastActive(vs, id)
    ensures HasActive(Without(vs, id))
  {
    var k :| 0 <= k < |vs| && ActiveAt(vs, k);
    var w := Without(vs, id);
    WithoutExact(vs, id);
    if vs[k].id != id {
      assert vs[k] in w;
      var m :| 0 <= m < |w| && w[m] == vs[k];
      assert ActiveAt(w, m);
    } else {
      if OnlyActive(vs, k) {
        OneActive(vs, k);
        assert false;
      }
      var j :| 0 <= j < |vs| && j != k && ActiveAt(vs, j);
      assert vs[j] in w;
      var m :| 0 <= m < |w| && w[m] == vs[j];
      assert ActiveAt(w, m);
    }
  }

  lemma DeactivateActive(r: Roster, i: nat)
    requires i < |r.validators| && HasActive(r.validators)
    requires !(ActiveAt(r.validators, i) && |Actives(r.validators)| <= 1)
    ensures HasActive(WithStatus(r, i, Inactive).validators)
  {
    StatusActive(r, i, Inactive);
    if OnlyActive(r.validators, i) {
      OneActive(r.validators, i);
    }
  }

  lemma PendingActive(r: Roster, current: u64)
    requires HasActive(r.validators)
    ensures HasActive(ProcessPending(r, current).validators)
  {
    var k :| 0 <= k < |r.validators| && ActiveAt(r.validators, k);
    assert ActiveAt(ProcessPending(r, current).validators, k);
  }

  lemma AppendActive(r: Roster, key: Key, activation: u64, current: u64)
    requires HasActive(r.validators)
    ensures HasActive(Append(r, key, activation, current).validators)
  {
    var k :| 0 <= k < |r.validators| && ActiveAt(r.validators, k);
    assert ActiveAt(Append(r, key, activation, current).validators, k);
  }

  /** A step leaves somebody active exactly when it does not park the only active validator. */
  lemma StepActive(verify: Verify, r: Roster, e: Event)
    requires Sound(r) && HasActive(r.validators)
    ensures HasActive(Next(verify, r, e).validators) <==> !Parks(verify, r, e)
  {
    hide Without, Actives, LastActive, Authorized, HasActive, ProcessPending, Append, WithStatus;
    var vs := r.validators;
    match e
    case Pending(height) => PendingActive(r, height);
    case AddDirect(key, activation, height) => AppendActive(r, key, activation, height);
    case Drop(id) =>
      if !LastActive(vs, id) {
        WithoutActive(vs, id);
      }
    case SetStatus(id, s) =>
      if Find(vs, id) < |vs| {
        StatusActive(r, Find(vs, id), s);
      }
    case Admin(op, height) =>
      if op.payload.ValidatorAdmin? {
        match op.payload.admin
        case Add(key, activation) => AppendActive(r, key, activation, height);
        case Remove(id, _) =>
          if !LastActive(vs, id) {
            WithoutActive(vs, id);
          }
        case Activate(id, activation) =>
          if Find(vs, id) < |vs| {
            StatusActive(r, Find(vs, id), StatusFor(activation, height));
          }
        case Deactivate(id, _) =>
          var i := Find(vs, id);
          if i < |vs| && !(ActiveAt(vs, i) && |Actives(vs)| <= 1) {
            DeactivateActive(r, i);
          }
      }
  }

  predicate NeverParks(verify: Verify, r: Roster, es: seq<Event>)
    decreases |es|
  {
    es == [] || (!Parks(verify, r, es[0]) && NeverParks(verify, Next(verify, r, es[0]), es[1..]))
  }

  lemma {:induction false} RunActive(verify: Verify, r: Roster, es: seq<Event>)
    requires Sound(r) && HasActive(r.validators) && r.nextId + |Issued(verify, r, es)| <= U64_MAX
    requires NeverParks(verify, r, es)
    ensures HasActive(After(verify, r, es).validators)
    decreases |es|
  {
    hide Sound, HasActive, Outcome, Issues, Parks;
    if es != [] {
      StepSound(verify, r, es[0]);
      StepActive(verify, r, es[0]);
      RunActive(verify, Next(verify, r, es[0]), es[1..]);
    }
  }

  // ---- Leaders ----

  function LeaderForHeight(r: Roster, height: u64): Result<Info, SetError> {
    var active := Actives(r.validators);
    if active == [] then Failure(NoActiveValidators) else Success(active[height % |active|])
  }

  lemma Multiples(p: int, q: int, n: nat)
    requires p < q
    ensures p * n + n <= q * n
  {
    assert q * n - (p * n + n) == (q - p - 1) * n;
  }

  lemma SameRemainder(a: nat, b: nat, n: nat)
    requires n > 0 && a % n == b % n && a <= b < a + n
    ensures a == b
  {
    var p, q := a / n, b / n;
    assert a == p * n + a % n && b == q * n + b % n;
    if p < q {
      Multiples(p, q, n);
    } else if q < p {
      Multiples(q, p, n);
    }
  }

  /** The height in the window at which position `i` leads. */
  function Turn(from: nat, n: nat, i: nat): (h: nat)
    requires i < n
    ensures from <= h < from + n && h % n == i
  {
    var s := from % n;
    var q := from / n;
    assert from == q * n + s;
    if s <= i then
      var h := from + (i - s);
      assert h == q * n + i;
      Remainder(q, n, i);
      h
    else
      var h := from + (n - s + i);
      assert h == (q + 1) * n + i;
      Remainder(q + 1, n, i);
      h
  }

  lemma Remainder(q: nat, n: nat, i: nat)
    requires i < n
    ensures (q * n + i) % n == i
  {
    var h := q * n + i;
    var d := h / n;
    assert h == d * n + h % n;
    if d > q {
      Multiples(q, d, n);
    } else if d < q {
      Multiples(d, q, n);
    }
  }

  lemma {:induction false} ActivesDistinct(vs: seq<Info>)
    requires DistinctIds(vs)
    ensures DistinctIds(Actives(vs)) && forall v :: v in Actives(vs) <==> v in vs && v.status.Active?
  {
    if vs != [] {
      var t := vs[1..];
      assert vs == [vs[0]] + t;
      assert DistinctIds(t) by {
        forall i, j | 0 <= i < j < |t| ensures t[i].id != t[j].id {
          assert t[i] == vs[i + 1] && t[j] == vs[j + 1];
        }
      }
      ActivesDistinct(t);
      var w := Actives(t);
      forall k | 0 <= k < |w| ensures w[k].id != vs[0].id {
        assert w[k] in t;
        var m :| 0 <= m < |t| && t[m] == w[k];
        assert vs[m + 1] == w[k];
      }
    }
  }

  /** Over any window of as many heights as there are active validators, each of them leads exactly once. */
  lemma LeadsOnce(r: Roster, from: u64, v: Info) returns (h: u64)
    requires DistinctIds(r.validators) && v in r.validators && v.status.Active?
    requires from + |Actives(r.validators)| <= 0x1_0000_0000_0000_0000
    ensures from <= h < from + |Actives(r.validators)|
    ensures forall g: u64 | from <= g < from + |Actives(r.validators)| :: LeaderForHeight(r, g) == Success(v) <==> g == h
  {
    var active := Actives(r.validators);
    ActivesDistinct(r.validators);
    assert v in active;
    var i :| 0 <= i < |active| && active[i] == v;
    h := Turn(from, |active|, i);
    forall g: u64 | from <= g < from + |active|
      ensures LeaderForHeight(r, g) == Success(v) <==> g == h
    {
      if active[g % |active|] == v {
        assert g % |active| == i;
        if g <= h {
          SameRemainder(g, h, |active|);
        } else {
          SameRemainder(h, g, |active|);
        }
      }
    }
  }

  // ---- The object ----

  /** The smallest counter above the ids seen, as the constructor accumulates it. */
  function CounterAfter(vs: seq<Info>): u64 {
    if vs == [] then 0 else
    var n := CounterAfter(vs[..|vs| - 1]);
    var id := vs[|vs| - 1].id;
    if id >= n then (id + 1) % 0x1_0000_0000_0000_0000 else n
  }

  /** A new set is sound exactly when its ids are distinct and none is the largest `u64`. */
  lemma GenesisSound(admin: Key, vs: seq<Info>)
    ensures Sound(Roster(admin, vs, CounterAfter(vs))) <==> DistinctIds(vs) && forall i | 0 <= i < |vs| :: vs[i].id < U64_MAX
  {
    if forall i | 0 <= i < |vs| :: vs[i].id < U64_MAX {
      CounterAbove(vs);
    }
  }

  lemma {:induction false} CounterAbove(vs: seq<Info>)
    requires forall i | 0 <= i < |vs| :: vs[i].id < U64_MAX
    ensures forall i | 0 <= i < |vs| :: vs[i].id < CounterAfter(vs)
  {
    if vs != [] {
      CounterAbove(vs[..|vs| - 1]);
    }
  }

  class ValidatorSet {
    const admin: Key
    var validators: seq<Info>
    var nextId: u64

    ghost function View(): Roster
      reads this
    {
      Roster(admin, validators, nextId)
    }

    constructor (admin: Key, initial: seq<Info>)
      ensures View() == Roster(admin, initial, CounterAfter(initial))
    {
      var next: u64 := 0;
      for i := 0 to |initial|
        invariant next == CounterAfter(initial[..i])
      {
        assert initial[..i + 1][..i] == initial[..i];
        if initial[i].id >= next {
          next := (initial[i].id + 1) % 0x1_0000_0000_0000_0000;
        }
      }
      assert initial[..|initial|] == initial;
      this.admin := admin;
      this.validators := initial;
      this.nextId := next;
    }

    method ActiveValidators() returns (active: seq<Info>)
      ensures active == Actives(validators)
    {
      active := [];
      for i := 0 to |validators|
        invariant active + Actives(validators[i..]) == Actives(validators)
      {
        assert validators[i..][1..] == validators[i + 1..];
        if validators[i].status.Active? {
          active := active + [validators[i]];
        }
      }
    }

    method Position(id: u64) returns (k: nat)
      ensures k == Find(validators, id)
    {
      k := 0;
      while k < |validators| && validators[k].id != id
        invariant k <= |validators| && forall j | 0 <= j < k :: validators[j].id != id
      {
        k := k + 1;
      }
    }

    method Retain(id: u64)
      modifies this
      ensures View() == old(View()).(validators := Without(old(validators), id))
    {
      var vs, kept: seq<Info> := validators, [];
      for i := 0 to |vs|
        invariant kept + Without(vs[i..], id) == Without(vs, id)
      {
        assert vs[i..][1..] == vs[i + 1..];
        if vs[i].id != id {
          kept := kept + [vs[i]];
        }
      }
      validators := kept;
    }

    method ApplyValidatorAdmin(verify: Verify, op: Operation, current: u64) returns (e: Option<SetError>)
      modifies this
      ensures var r := ApplyAdmin(verify, old(View()), op, current);
              if r.Success? then e == None && View() == r.value else e == Some(r.error) && View() == old(View())
    {
      hide Actives, Without;
      if !op.payload.ValidatorAdmin? {
        return Some(InvalidAdminSignature);
      }
      var message := PutStripped(op, []);
      var ok := exists i | 0 <= i < |op.signatures| :: verify(op.signatures[i], admin, message);
      if !ok {
        return Some(InvalidAdminSignature);
      }
      e := None;
      match op.payload.admin {
        case Add(key, activation) =>
          var _ := AddValidatorDirect(key, activation, current);
        case Remove(id, activation) =>
          if activation > current {
            return Some(InvalidActivation);
          }
          var k := Position(id);
          if k == |validators| {
            return Some(ValidatorNotFound);
          }
          var active := ActiveValidators();
          if |active| <= 1 && exists i | 0 <= i < |validators| :: validators[i].id == id && ActiveAt(validators, i) {
            return Some(CannotRemoveLastActive);
          }
          Retain(id);
        case Activate(id, activation) =>
          var k := Position(id);
          if k == |validators| {
            return Some(ValidatorNotFound);
          }
          var status := if activation <= current then Active else PendingActivation(activation);
          validators := validators[k := validators[k].(status := status)];
        case Deactivate(id, activation) =>
          if activation > current {
            return Some(InvalidActivation);
          }
          var active := ActiveValidators();
          var k := Position(id);
          if k == |validators| {
            return Some(ValidatorNotFound);
          }
          if validators[k].status.Active? && |active| <= 1 {
            return Some(CannotRemoveLastActive);
          }
          validators := validators[k := validators[k].(status := Inactive)];
      }
    }

    method ProcessPendingActivations(current: u64)
      modifies this
      ensures View() == ProcessPending(old(View()), current)
    {
      for i := 0 to |validators|
        invariant nextId == old(nextId) && |validators| == |old(validators)|
        invariant forall j | 0 <= j < i :: validators[j] == Activated(old(validators)[j], current)
        invariant forall j | i <= j < |validators| :: validators[j] == old(validators)[j]
      {
        var v := validators[i];
        if v.status.PendingActivation? {
          if current >= v.status.height {
            validators := validators[i := v.(status := Active)];
          }
        }
      }
      assert validators == ProcessPending(old(View()), current).validators;
    }

    method AddValidatorDirect(key: Key, activation: u64, current: u64) returns (id: u64)
      modifies this
      ensures id == old(nextId) && View() == Append(old(View()), key, activation, current)
    {
      id := nextId;
      nextId := (nextId + 1) % 0x1_0000_0000_0000_0000;
      var status := if activation <= current then Active else PendingActivation(activation);
      validators := validators + [Info(id, key, status)];
    }

    method RemoveValidatorDirect(id: u64) returns (e: Option<SetError>)
      modifies this
      ensures var r := RemoveDirect(old(View()), id);
              if r.Success? then e == None && View() == r.value else e == Some(r.error) && View() == old(View())
    {
      hide Actives, Without;
      var active := ActiveValidators();
      if |active| <= 1 && exists i | 0 <= i < |validators| :: validators[i].id == id && ActiveAt(validators, i) {
        return Some(CannotRemoveLastActive);
      }
      var before := |validators|;
      WithoutLength(validators, id);
      Retain(id);
      e := if |validators| == before then Some(ValidatorNotFound) else None;
    }

    method SetValidatorStatusDirect(id: u64, status: Status) returns (e: Option<SetError>)
      modifies this
      ensures var r := SetStatusDirect(old(View()), id, status);
              if r.Success? then e == None && View() == r.value else e == Some(r.error) && View() == old(View())
    {
      var k := Position(id);
      if k == |validators| {
        return Some(ValidatorNotFound);
      }
      validators := validators[k := validators[k].(status := status)];
      e := None;
    }

    method Leader(height: u64) returns (v: Result<Info, SetError>)
      ensures v == LeaderForHeight(View(), height)
    {
      var active := ActiveValidators();
      if active == [] {
        return Failure(NoActiveValidators);
      }
      v := Success(active[height % |active|]);
    }
  }

  /** Removing changes the length exactly when somebody had the id; otherwise it changes nothing. */
  lemma {:induction false} WithoutLength(vs: seq<Info>, id: u64)
    ensures |Without(vs, id)| <= |vs|
    ensures |Without(vs, id)| == |vs| <==> Find(vs, id) == |vs|
    ensures |Without(vs, id)| == |vs| ==> Without(vs, id) == vs
  {
    if vs != [] {
      WithoutLength(vs[1..], id);
      assert vs == [vs[0]] + vs[1..];
    }
  }
}
