/** What every step on a validator set does to its members, stated member by member. */
module ValidatorRules {
  import opened Bytes
  import opened Operations
  import opened PayloadCodec
  import opened Validators

  /** The first member with the id. */
  predicate FirstWith(vs: seq<Info>, id: u64, i: nat) {
    i < |vs| && vs[i].id == id && forall j | 0 <= j < i :: vs[j].id != id
  }

  predicate Member(vs: seq<Info>, id: u64) { exists v | v in vs :: v.id == id }

  /** The only active member has the id. */
  predicate OnlyActiveIs(vs: seq<Info>, id: u64) { exists i | 0 <= i < |vs| :: OnlyActive(vs, i) && vs[i].id == id }

  /** `after` differs from `before` in one place at most, where it is `v`. */
  predicate ChangedAt(before: seq<Info>, after: seq<Info>, i: nat, v: Info) {
    && |after| == |before| && i < |before| && after[i] == v
    && forall j | 0 <= j < |before| && j != i :: after[j] == before[j]
  }

  /** `after` is `before` without the members of that id, everybody else kept in order. */
  ghost predicate Purged(before: seq<Info>, after: seq<Info>, id: u64) {
    exists ps: seq<nat> :: PurgedAt(before, after, id, ps)
  }

  predicate PurgedAt(before: seq<Info>, after: seq<Info>, id: u64, ps: seq<nat>) {
    && |ps| == |after|
    && (forall k | 0 <= k < |ps| :: ps[k] < |before| && after[k] == before[ps[k]])
    && (forall j, k | 0 <= j < k < |ps| :: ps[j] < ps[k])
    && (forall i | 0 <= i < |before| :: i in ps <==> before[i].id != id)
  }

  // ---- The filters, by position ----

  lemma FindMeans(vs: seq<Info>, id: u64)
    ensures Find(vs, id) < |vs| <==> Member(vs, id)
    ensures Find(vs, id) < |vs| ==> FirstWith(vs, id, Find(vs, id))
  {
    var i := Find(vs, id);
    if i < |vs| {
      assert vs[i] in vs;
    }
  }

  lemma LastActiveMeans(vs: seq<Info>, id: u64)
    ensures LastActive(vs, id) <==> OnlyActiveIs(vs, id)
  {
    hide Actives;
    ActivesCount(vs);
    if LastActive(vs, id) {
      var i :| 0 <= i < |vs| && vs[i].id == id && ActiveAt(vs, i);
      forall j | 0 <= j < |vs| && j != i ensures !ActiveAt(vs, j) {
        assert i < j || j < i;
      }
      assert OnlyActive(vs, i);
    }
    if i :| 0 <= i < |vs| && OnlyActive(vs, i) && vs[i].id == id {
      OneActive(vs, i);
    }
  }

  /** At a position that is active, being the last one is being the only one. */
  lemma LastAt(vs: seq<Info>, i: nat)
    requires i < |vs|
    ensures ActiveAt(vs, i) && |Actives(vs)| <= 1 <==> OnlyActive(vs, i)
  {
    hide Actives;
    ActivesCount(vs);
    if ActiveAt(vs, i) && |Actives(vs)| <= 1 {
      forall j | 0 <= j < |vs| && j != i ensures !ActiveAt(vs, j) {
        assert i < j || j < i;
      }
    }
    if OnlyActive(vs, i) {
      OneActive(vs, i);
    }
  }

  lemma {:induction false} WithoutSnoc(vs: seq<Info>, v: Info, id: u64)
    ensures Without(vs + [v], id) == Without(vs, id) + if v.id != id then [v] else []
  {
    if vs == [] {
      assert vs + [v] == [v] && [v][1..] == [];
    } else {
      var t, head, tail := vs[1..], if vs[0].id != id then [vs[0]] else [], if v.id != id then [v] else [];
      assert (vs + [v])[1..] == t + [v] && (vs + [v])[0] == vs[0];
      assert Without(vs, id) == head + Without(t, id) && Without(vs + [v], id) == head + Without(t + [v], id);
      WithoutSnoc(t, v, id);
      hide Without;
      assert head + (Without(t, id) + tail) == (head + Without(t, id)) + tail;
    }
  }

  lemma {:induction false} WithoutAt(vs: seq<Info>, id: u64) returns (ps: seq<nat>)
    ensures PurgedAt(vs, Without(vs, id), id, ps)
  {
    if vs == [] {
      ps := [];
    } else {
      hide Without;
      var n := |vs| - 1;
      var front := vs[..n];
      assert vs == front + [vs[n]];
      WithoutSnoc(front, vs[n], id);
      ps := WithoutAt(front, id);
      if vs[n].id != id {
        ps := ps + [n];
      }
    }
  }

  // ---- Admin steps ----

  /** Some signature of the operation over its unsigned bytes verifies under the admin key. */
  predicate AdminSigned(verify: Verify, admin: Key, op: Operation) {
    exists i | 0 <= i < |op.signatures| :: verify(op.signatures[i], admin, PutStripped(op, []))
  }

  /** Who is not entitled changes nothing. */
  lemma Unentitled(verify: Verify, r: Roster, op: Operation, height: u64)
    requires !op.payload.ValidatorAdmin? || !AdminSigned(verify, r.admin, op)
    ensures ApplyAdmin(verify, r, op, height) == Failure(InvalidAdminSignature)
    ensures Next(verify, r, Admin(op, height)) == r
  {
    hide PutStripped;
  }

  function DueStatus(activation: u64, height: u64): Status {
    if height >= activation then Active else PendingActivation(activation)
  }

  /** An addition appends one member with the given key and the next id, active at once or pending by its height. */
  lemma AddTakesEffect(verify: Verify, r: Roster, op: Operation, height: u64)
    requires op.payload.ValidatorAdmin? && op.payload.admin.Add? && AdminSigned(verify, r.admin, op)
    ensures var a, after := op.payload.admin, Next(verify, r, Admin(op, height));
            && ApplyAdmin(verify, r, op, height).Success? && after.admin == r.admin
            && |after.validators| == |r.validators| + 1 && after.validators[..|r.validators|] == r.validators
            && after.validators[|r.validators|] == Info(r.nextId, a.publicKey, DueStatus(a.activationHeight, height))
            && after.nextId == if r.nextId == 0xFFFF_FFFF_FFFF_FFFF then 0 else r.nextId + 1
  {
    hide PutStripped;
    var after := Next(verify, r, Admin(op, height));
    assert after.validators[..|r.validators|] == r.validators;
  }

  /** A removal is accepted exactly when it is due, the id is a member's and not the only active one's; then the id is gone. */
  lemma RemoveTakesEffect(verify: Verify, r: Roster, op: Operation, height: u64)
    requires op.payload.ValidatorAdmin? && op.payload.admin.Remove? && AdminSigned(verify, r.admin, op)
    ensures var a, res, after := op.payload.admin, ApplyAdmin(verify, r, op, height), Next(verify, r, Admin(op, height));
            && (a.activationHeight > height ==> res == Failure(InvalidActivation))
            && (a.activationHeight <= height && !Member(r.validators, a.validatorId) ==> res == Failure(ValidatorNotFound))
            && (a.activationHeight <= height && OnlyActiveIs(r.validators, a.validatorId) ==> res == Failure(CannotRemoveLastActive))
            && (a.activationHeight <= height && Member(r.validators, a.validatorId) && !OnlyActiveIs(r.validators, a.validatorId) ==>
                  res.Success? && Purged(r.validators, after.validators, a.validatorId))
            && after.admin == r.admin && after.nextId == r.nextId && (res.Failure? ==> after == r)
  {
    hide PutStripped, Without, LastActive, OnlyActiveIs, Member, PurgedAt;
    var id := op.payload.admin.validatorId;
    FindMeans(r.validators, id);
    LastActiveMeans(r.validators, id);
    OnlyIsMember(r.validators, id);
    var ps := WithoutAt(r.validators, id);
  }

  lemma OnlyIsMember(vs: seq<Info>, id: u64)
    ensures OnlyActiveIs(vs, id) ==> Member(vs, id)
  {
    if i :| 0 <= i < |vs| && OnlyActive(vs, i) && vs[i].id == id {
      assert vs[i] in vs;
    }
  }

  /** An activation is accepted exactly for a member, whose status becomes active or pending by the height and nothing else. */
  lemma ActivateTakesEffect(verify: Verify, r: Roster, op: Operation, height: u64)
    requires op.payload.ValidatorAdmin? && op.payload.admin.Activate? && AdminSigned(verify, r.admin, op)
    ensures var a, res, after := op.payload.admin, ApplyAdmin(verify, r, op, height), Next(verify, r, Admin(op, height));
            && (!Member(r.validators, a.validatorId) ==> res == Failure(ValidatorNotFound))
            && (forall i: nat | FirstWith(r.validators, a.validatorId, i) ::
                  && res.Success?
                  && ChangedAt(r.validators, after.validators, i, r.validators[i].(status := DueStatus(a.activationHeight, height))))
            && after.admin == r.admin && after.nextId == r.nextId && (res.Failure? ==> after == r)
  {
    hide PutStripped, Member;
    FindMeans(r.validators, op.payload.admin.validatorId);
  }

  /** A deactivation is accepted exactly when it is due and for a member that is not the only active one. */
  lemma DeactivateTakesEffect(verify: Verify, r: Roster, op: Operation, height: u64)
    requires op.payload.ValidatorAdmin? && op.payload.admin.Deactivate? && AdminSigned(verify, r.admin, op)
    ensures var a, res, after := op.payload.admin, ApplyAdmin(verify, r, op, height), Next(verify, r, Admin(op, height));
            && (a.activationHeight > height ==> res == Failure(InvalidActivation))
            && (a.activationHeight <= height && !Member(r.validators, a.validatorId) ==> res == Failure(ValidatorNotFound))
            && (forall i: nat | a.activationHeight <= height && FirstWith(r.validators, a.validatorId, i) ::
                  if OnlyActive(r.validators, i) then res == Failure(CannotRemoveLastActive)
                  else res.Success? && ChangedAt(r.validators, after.validators, i, r.validators[i].(status := Inactive)))
            && after.admin == r.admin && after.nextId == r.nextId && (res.Failure? ==> after == r)
  {
    hide PutStripped, Member, Actives, OnlyActive;
    var i := Find(r.validators, op.payload.admin.validatorId);
    FindMeans(r.validators, op.payload.admin.validatorId);
    if i < |r.validators| {
      LastAt(r.validators, i);
    }
  }

  // ---- Direct steps ----

  lemma RemoveDirectTakesEffect(r: Roster, id: u64)
    ensures OnlyActiveIs(r.validators, id) ==> RemoveDirect(r, id) == Failure(CannotRemoveLastActive)
    ensures !Member(r.validators, id) ==> RemoveDirect(r, id) == Failure(ValidatorNotFound)
    ensures Member(r.validators, id) && !OnlyActiveIs(r.validators, id) ==>
              && RemoveDirect(r, id).Success? && Purged(r.validators, RemoveDirect(r, id).value.validators, id)
              && RemoveDirect(r, id).value.admin == r.admin && RemoveDirect(r, id).value.nextId == r.nextId
  {
    hide Without, LastActive, OnlyActiveIs, Member, PurgedAt;
    FindMeans(r.validators, id);
    LastActiveMeans(r.validators, id);
    OnlyIsMember(r.validators, id);
    var ps := WithoutAt(r.validators, id);
  }

  lemma SetStatusTakesEffect(r: Roster, id: u64, s: Status)
    ensures !Member(r.validators, id) ==> SetStatusDirect(r, id, s) == Failure(ValidatorNotFound)
    ensures forall i: nat | FirstWith(r.validators, id, i) ::
              && SetStatusDirect(r, id, s).Success?
              && ChangedAt(r.validators, SetStatusDirect(r, id, s).value.validators, i, r.validators[i].(status := s))
  {
    hide Member;
    FindMeans(r.validators, id);
  }

  /** Processing leaves nobody pending whose height has come, makes exactly those active, and changes nothing else. */
  lemma PendingTakesEffect(r: Roster, height: u64)
    ensures var after := ProcessPending(r, height);
            && |after.validators| == |r.validators| && after.admin == r.admin && after.nextId == r.nextId
            && (forall i | 0 <= i < |r.validators| ::
                  var v := r.validators[i];
                  after.validators[i] ==
                    if v.status.PendingActivation? && v.status.height <= height then Info(v.id, v.key, Active) else v)
            && (forall v | v in after.validators && v.status.PendingActivation? :: v.status.height > height)
  {
  }

  // ---- Who leads ----

  /** The next active position behind `i`, going round. */
  predicate FollowsActive(vs: seq<Info>, i: nat, j: nat) {
    && ActiveAt(vs, i) && ActiveAt(vs, j)
    && if i < j then forall k | i < k < j :: !ActiveAt(vs, k)
       else (forall k | i < k < |vs| :: !ActiveAt(vs, k)) && (forall k | 0 <= k < j :: !ActiveAt(vs, k))
  }

  /** The positions of the active members, in order. */
  predicate ActivePositions(vs: seq<Info>, ps: seq<nat>) {
    && (forall k | 0 <= k < |ps| :: ActiveAt(vs, ps[k]))
    && (forall j, k | 0 <= j < k < |ps| :: ps[j] < ps[k])
    && (forall i | 0 <= i < |vs| && ActiveAt(vs, i) :: i in ps)
  }

  lemma {:induction false} ActivesSnoc(vs: seq<Info>, v: Info)
    ensures Actives(vs + [v]) == Actives(vs) + if v.status.Active? then [v] else []
  {
    if vs == [] {
      assert vs + [v] == [v] && [v][1..] == [];
    } else {
      var t, head, tail := vs[1..], if vs[0].status.Active? then [vs[0]] else [], if v.status.Active? then [v] else [];
      assert (vs + [v])[1..] == t + [v] && (vs + [v])[0] == vs[0];
      assert Actives(vs) == head + Actives(t) && Actives(vs + [v]) == head + Actives(t + [v]);
      ActivesSnoc(t, v);
      hide Actives;
      assert head + (Actives(t) + tail) == (head + Actives(t)) + tail;
    }
  }

  lemma PositionsSnoc(front: seq<Info>, v: Info, qs: seq<nat>)
    requires ActivePositions(front, qs)
    ensures ActivePositions(front + [v], if v.status.Active? then qs + [|front|] else qs)
  {
    var vs, n := front + [v], |front|;
    assert forall i | 0 <= i < n :: ActiveAt(vs, i) == ActiveAt(front, i);
    var ps := if v.status.Active? then qs + [n] else qs;
    forall i | 0 <= i < |vs| && ActiveAt(vs, i) ensures i in ps {
      if i < n {
        assert ActiveAt(front, i) && i in qs;
      }
    }
  }

  /** The list of active members, each at its position. */
  predicate Placed(vs: seq<Info>, active: seq<Info>, ps: seq<nat>) {
    |ps| == |active| && forall k | 0 <= k < |ps| :: ps[k] < |vs| && active[k] == vs[ps[k]]
  }

  lemma PlacedSnoc(front: seq<Info>, v: Info, active: seq<Info>, qs: seq<nat>)
    requires Placed(front, active, qs)
    ensures Placed(front + [v], active, qs) && Placed(front + [v], active + [v], qs + [|front|])
  {
  }

  lemma NobodyPlaced()
    ensures ActivePositions([], []) && Placed([], Actives([]), [])
  {
  }

  lemma {:induction false} ActivesAt(vs: seq<Info>) returns (ps: seq<nat>)
    ensures ActivePositions(vs, ps) && Placed(vs, Actives(vs), ps)
  {
    hide Actives, ActivePositions, Placed;
    if vs == [] {
      NobodyPlaced();
      return [];
    }
    var n := |vs| - 1;
    var front, v := vs[..n], vs[n];
    assert vs == front + [v];
    ActivesSnoc(front, v);
    var qs := ActivesAt(front);
    PositionsSnoc(front, v, qs);
    PlacedSnoc(front, v, Actives(front), qs);
    assert Actives(front) + [] == Actives(front);
    ps := if v.status.Active? then qs + [n] else qs;
  }

  lemma NothingBetween(vs: seq<Info>, ps: seq<nat>, k: nat, m: nat)
    requires ActivePositions(vs, ps) && k < |ps| && ps[k] < m < |vs| && (k + 1 < |ps| ==> m < ps[k + 1])
    ensures !ActiveAt(vs, m)
  {
    forall x | 0 <= x < |ps|
      ensures ps[x] != m
    {
      assert x < k || x == k || x == k + 1 || x > k + 1;
    }
  }

  lemma NothingBefore(vs: seq<Info>, ps: seq<nat>, m: nat)
    requires ActivePositions(vs, ps) && |ps| > 0 && m < ps[0] && m < |vs|
    ensures !ActiveAt(vs, m)
  {
    forall x | 0 <= x < |ps|
      ensures ps[x] != m
    {
      assert x == 0 || x > 0;
    }
  }

  lemma SuccessorAt(vs: seq<Info>, ps: seq<nat>, k: nat)
    requires ActivePositions(vs, ps) && k < |ps|
    ensures FollowsActive(vs, ps[k], ps[(k + 1) % |ps|])
  {
    hide ActivePositions;
    var n := if k + 1 < |ps| then k + 1 else 0;
    assert (k + 1) % |ps| == n;
    assert ActiveAt(vs, ps[k]) && ActiveAt(vs, ps[n]) && (n > 0 ==> ps[k] < ps[n]) && (n == 0 ==> ps[n] <= ps[k]) by {
      InOrder(vs, ps, k, n);
    }
    forall m | ps[k] < m < |vs| && (n > 0 ==> m < ps[n]) ensures !ActiveAt(vs, m) {
      NothingBetween(vs, ps, k, m);
    }
    assert ActiveAt(vs, ps[0]) by { InOrder(vs, ps, k, 0); }
    forall m | 0 <= m < ps[0] ensures !ActiveAt(vs, m) {
      NothingBefore(vs, ps, m);
    }
  }

  lemma InOrder(vs: seq<Info>, ps: seq<nat>, k: nat, n: nat)
    requires ActivePositions(vs, ps) && k < |ps| && n < |ps| && (n == k + 1 || n == 0)
    ensures ActiveAt(vs, ps[k]) && ActiveAt(vs, ps[n]) && (n > 0 ==> ps[k] < ps[n]) && (n == 0 ==> ps[n] <= ps[k])
  {
  }

  /** Height 0 is led by the first active member, and each next height by the next active one, going round. */
  lemma Rotation(r: Roster, height: u64) returns (i: nat, j: nat)
    requires HasActive(r.validators) && height + 1 < 0x1_0000_0000_0000_0000
    ensures i < |r.validators| && j < |r.validators|
    ensures LeaderForHeight(r, height) == Success(r.validators[i]) && LeaderForHeight(r, height + 1) == Success(r.validators[j])
    ensures FollowsActive(r.validators, i, j)
    ensures height == 0 ==> forall k | 0 <= k < i :: !ActiveAt(r.validators, k)
  {
    hide Actives, ActivePositions, FollowsActive, LeaderForHeight;
    var vs := r.validators;
    ActivesCount(vs);
    var ps := ActivesAt(vs);
    assert |ps| > 0;
    i := LeaderAt(r, ps, height);
    j := LeaderAt(r, ps, height + 1);
    NextRemainder(height, |ps|);
    SuccessorAt(vs, ps, height % |ps|);
    if height == 0 {
      forall k | 0 <= k < i ensures !ActiveAt(vs, k) {
        NothingBefore(vs, ps, k);
      }
    }
  }

  lemma LeaderAt(r: Roster, ps: seq<nat>, height: u64) returns (i: nat)
    requires |ps| > 0 && Placed(r.validators, Actives(r.validators), ps)
    ensures i == ps[height % |ps|] && i < |r.validators| && LeaderForHeight(r, height) == Success(r.validators[i])
  {
    hide Actives;
    i := ps[height % |ps|];
  }

  lemma NextRemainder(h: nat, n: nat)
    requires n > 0
    ensures (h + 1) % n == (h % n + 1) % n
  {
    var q, s := h / n, h % n;
    assert h == q * n + s;
    if s + 1 < n {
      Remainder(q, n, s + 1);
    } else {
      assert h + 1 == (q + 1) * n + 0;
      Remainder(q + 1, n, 0);
    }
  }

  // ---- The first counter ----

  /** A new set counts on from its largest id, from zero when it is empty. */
  lemma {:induction false} FirstCounter(vs: seq<Info>)
    requires forall v | v in vs :: v.id < 0xFFFF_FFFF_FFFF_FFFF
    ensures vs == [] ==> CounterAfter(vs) == 0
    ensures vs != [] ==> (exists v | v in vs :: CounterAfter(vs) == v.id + 1) && forall v | v in vs :: v.id < CounterAfter(vs)
  {
    if vs != [] {
      var front, last := vs[..|vs| - 1], vs[|vs| - 1];
      assert vs == front + [last] && last in vs && forall v | v in front :: v in vs;
      FirstCounter(front);
      if last.id < CounterAfter(front) {
        var v :| v in front && CounterAfter(front) == v.id + 1;
        assert v in vs && CounterAfter(vs) == v.id + 1;
      } else {
        assert CounterAfter(vs) == last.id + 1;
      }
    }
  }
}
