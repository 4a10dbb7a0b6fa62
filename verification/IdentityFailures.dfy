/** identity_map after a push that stopped half way, when every identity keeps one unshared address:
    the writer's two maps then move together, one identity at a time. */
module IdentityFailures {
  import opened Wire
  import opened Translate
  import opened Diff
  import opened Datapath
  import opened IdentityMapRefinement

  /** The writer's two maps are inverse to each other and place every identity at home. */
  ghost predicate Paired(w: State, home: map<IdentityID, U32>) {
    forall a: U32, x: IdentityID :: PairedAt(w, home, a, x)
  }

  predicate PairedAt(w: State, home: map<IdentityID, U32>, a: U32, x: IdentityID) {
    && (Get(w.identityMap, a) == Some(x) <==> Get(w.keyByID, x) == Some(a))
    && (Get(w.keyByID, x) == Some(a) ==> Get(home, x) == Some(a))
  }

  predicate Mentions(op: Op, x: IdentityID) {
    (op.PutIdentity? && op.identity.id == x) || (op.DropIdentity? && op.id == x)
  }

  predicate HomeOp(op: Op, home: map<IdentityID, U32>) {
    op.PutIdentity? ==> op.identity.id in home && NetworkKey(op.identity) == Some(home[op.identity.id])
  }

  lemma ExecPairedAt(op: Op, w: State, home: map<IdentityID, U32>, a: U32, x: IdentityID)
    requires Paired(w, home) && HomeOp(op, home) && Unshared(home)
    ensures PairedAt(Exec(op, w), home, a, x)
  {
    assert PairedAt(w, home, a, x);
    if op.PutIdentity? {
      assert PairedAt(w, home, a, op.identity.id);
    } else if op.DropIdentity? && op.id in w.keyByID {
      assert PairedAt(w, home, w.keyByID[op.id], op.id) && PairedAt(w, home, w.keyByID[op.id], x);
      assert PairedAt(w, home, a, op.id);
    }
  }

  lemma ExecPaired(op: Op, w: State, home: map<IdentityID, U32>, x: IdentityID)
    requires Paired(w, home) && HomeOp(op, home) && Unshared(home)
    ensures Paired(Exec(op, w), home)
    ensures x in Exec(op, w).keyByID <==> if Mentions(op, x) then op.PutIdentity? else x in w.keyByID
  {
    forall a: U32, y: IdentityID ensures PairedAt(Exec(op, w), home, a, y) {
      ExecPairedAt(op, w, home, a, y);
    }
    hide Paired, PairedAt, Unshared;
  }

  lemma {:induction false} ExecAllPaired(ops: seq<Op>, w: State, home: map<IdentityID, U32>)
    requires Paired(w, home) && Unshared(home) && forall i :: 0 <= i < |ops| ==> HomeOp(ops[i], home)
    ensures Paired(ExecAll(ops, w), home)
  {
    hide Paired, HomeOp, Unshared;
    if ops != [] {
      ExecPaired(ops[0], w, home, 0);
      assert forall i :: 0 <= i < |ops| - 1 ==> ops[1..][i] == ops[i + 1];
      ExecAllPaired(ops[1..], Exec(ops[0], w), home);
    }
  }

  /** If every operation that mentions x agrees, x is there accordingly once one of them has run. */
  lemma {:induction false} PresentAfter(ops: seq<Op>, w: State, home: map<IdentityID, U32>, x: IdentityID, put: bool)
    requires Paired(w, home) && Unshared(home) && forall i :: 0 <= i < |ops| ==> HomeOp(ops[i], home)
    requires forall i :: 0 <= i < |ops| && Mentions(ops[i], x) ==> ops[i].PutIdentity? == put
    ensures Paired(ExecAll(ops, w), home)
    ensures x in ExecAll(ops, w).keyByID <==>
            if exists i :: 0 <= i < |ops| && Mentions(ops[i], x) then put else x in w.keyByID
  {
    if ops != [] {
      hide Paired, HomeOp, Unshared;
      var rest := ops[1..];
      assert forall i :: 0 <= i < |rest| ==> rest[i] == ops[i + 1];
      ExecPaired(ops[0], w, home, x);
      PresentAfter(rest, Exec(ops[0], w), home, x, put);
      if i :| 0 <= i < |ops| && Mentions(ops[i], x) {
        assert i > 0 ==> Mentions(rest[i - 1], x);
      }
      if j :| 0 <= j < |rest| && Mentions(rest[j], x) {
        assert Mentions(ops[j + 1], x);
      }
    }
  }

  /** The operations of a plan that mention x, read off its two identity lists. */
  lemma OpsMentioning(plan: CommitPlan, x: IdentityID)
    ensures var ops := Ops(plan);
            forall i :: 0 <= i < |ops| && Mentions(ops[i], x) ==>
              || (ops[i].PutIdentity? && ops[i].identity in plan.identityUpserts && ops[i].identity.id == x)
              || (ops[i] == DropIdentity(x) && x in plan.identityDeletes)
    ensures (exists d :: d in plan.identityUpserts && d.id == x) || x in plan.identityDeletes ==>
              exists i :: 0 <= i < |Ops(plan)| && Mentions(Ops(plan)[i], x)
  {
    var ops := Ops(plan);
    var a := |plan.identityUpserts| + |PolicyOps(plan)|;
    forall i | 0 <= i < |ops| && Mentions(ops[i], x)
      ensures || (ops[i].PutIdentity? && ops[i].identity in plan.identityUpserts)
              || (ops[i] == DropIdentity(x) && x in plan.identityDeletes)
    {
      if ops[i].PutIdentity? {
        assert ops[i] == PutIdentity(plan.identityUpserts[i]);
      } else {
        assert ops[i] == DropIdentity(plan.identityDeletes[i - a]);
      }
    }
    if d :| d in plan.identityUpserts && d.id == x {
      var j :| 0 <= j < |plan.identityUpserts| && plan.identityUpserts[j] == d;
      assert ops[j] == PutIdentity(d);
    } else if x in plan.identityDeletes {
      var j :| 0 <= j < |plan.identityDeletes| && plan.identityDeletes[j] == x;
      assert ops[a + j] == DropIdentity(x);
    }
  }

  /** A plan mentions exactly the identities whose entry changes, and puts exactly those that stay. */
  lemma PlanMentions(prev: Snapshot, next: Snapshot, x: IdentityID)
    requires UniqueIdentities(prev.identities) && UniqueIdentities(next.identities)
    ensures var ops := Ops(Plan(prev, next));
            && (forall i :: 0 <= i < |ops| && Mentions(ops[i], x) ==>
                  ops[i].PutIdentity? == (x in IdentityTable(next.identities)))
            && ((exists i :: 0 <= i < |ops| && Mentions(ops[i], x)) <==>
                Get(IdentityTable(prev.identities), x) != Get(IdentityTable(next.identities), x))
  {
    var ps, ns := prev.identities, next.identities;
    OpsMentioning(Plan(prev, next), x);
    IdentityTableUnique(ps);
    IdentityTableUnique(ns);
    ChangedIdentitiesMembers(ns, IdentityTable(ps));
    GoneIdentitiesMembers(ps, IdentityTable(ns).Keys);
    hide Ops, ChangedIdentities, GoneIdentities, IdentityTable;
    if x in IdentityTable(ns) {
      var i :| 0 <= i < |ns| && ns[i].id == x;
      assert ns[i] in ns;
    }
  }

  lemma PlanAtHome(prev: Snapshot, next: Snapshot, home: map<IdentityID, U32>)
    requires UniqueIdentities(next.identities) && AtHome(next.identities, home)
    ensures forall i :: 0 <= i < |Ops(Plan(prev, next))| ==> HomeOp(Ops(Plan(prev, next))[i], home)
  {
    ChangedIdentitiesMembers(next.identities, IdentityTable(prev.identities));
    var plan := Plan(prev, next);
    hide Plan, IdentityTable, UniqueIdentities, ChangedIdentities;
    forall i | 0 <= i < |Ops(plan)| ensures HomeOp(Ops(plan)[i], home) {
      OpAt(plan, i);
    }
  }

  /** The identities a plan puts are those of its first list. */
  lemma OpAt(plan: CommitPlan, i: nat)
    requires i < |Ops(plan)|
    ensures Ops(plan)[i].PutIdentity? ==> Ops(plan)[i].identity in plan.identityUpserts
  {
    var a := |plan.identityUpserts|;
    if i < a {
      assert Ops(plan)[i] == PutIdentity(plan.identityUpserts[i]);
    } else {
      assert Ops(plan)[i] == (PolicyOps(plan) + DropIdentityOps(plan.identityDeletes))[i - a];
    }
  }

  lemma SameOption(a: Option<IdentityID>, b: Option<IdentityID>)
    requires forall x: IdentityID :: a == Some(x) <==> b == Some(x)
    ensures a == b
  {
    if a.Some? { assert a == Some(a.value); }
    if b.Some? { assert b == Some(b.value); }
  }

  lemma NamedIfInSync(w: State, ids: seq<Identity>, home: map<IdentityID, U32>, x: IdentityID)
    requires Paired(w, home) && UniqueIdentities(ids) && AtHome(ids, home) && Unshared(home) && MapInSync(w, ids)
    ensures x in w.keyByID <==> x in IdentityTable(ids)
  {
    NamedAtHome(ids, home, x);
    if x in w.keyByID { assert PairedAt(w, home, w.keyByID[x], x); }
    if x in home {
      OwnedAtHome(ids, home, x, home[x]);
      assert PairedAt(w, home, home[x], x);
      assert Get(w.identityMap, home[x]) == OwnerOf(ids, home[x]);
    }
  }

  lemma InSyncIfNamed(w: State, ids: seq<Identity>, home: map<IdentityID, U32>, a: U32, x: IdentityID)
    requires Paired(w, home) && UniqueIdentities(ids) && AtHome(ids, home) && Unshared(home)
    requires x in w.keyByID <==> x in IdentityTable(ids)
    ensures Get(w.identityMap, a) == Some(x) <==> OwnerOf(ids, a) == Some(x)
  {
    hide AtHome, Unshared, UniqueIdentities;
    assert PairedAt(w, home, a, x);
    OwnedAtHome(ids, home, x, a);
    if x in w.keyByID { assert PairedAt(w, home, w.keyByID[x], x); }
  }

  /** For lists at home, being in step means naming the same identities. */
  lemma InSyncMeansNamed(w: State, ids: seq<Identity>, home: map<IdentityID, U32>)
    requires Paired(w, home) && UniqueIdentities(ids) && AtHome(ids, home) && Unshared(home)
    ensures MapInSync(w, ids) <==> forall x: IdentityID :: x in w.keyByID <==> x in IdentityTable(ids)
  {
    hide Paired, UniqueIdentities, AtHome, Unshared, IdentityTable, OwnerOf;
    if MapInSync(w, ids) {
      forall x: IdentityID ensures x in w.keyByID <==> x in IdentityTable(ids) { NamedIfInSync(w, ids, home, x); }
    }
    if forall x: IdentityID :: x in w.keyByID <==> x in IdentityTable(ids) {
      forall a: U32, x: IdentityID ensures Get(w.identityMap, a) == Some(x) <==> OwnerOf(ids, a) == Some(x) {
        InSyncIfNamed(w, ids, home, a, x);
      }
      forall a: U32 ensures Get(w.identityMap, a) == OwnerOf(ids, a) {
        SameOption(Get(w.identityMap, a), OwnerOf(ids, a));
      }
    }
  }

  lemma NamedAtHome(ids: seq<Identity>, home: map<IdentityID, U32>, x: IdentityID)
    requires UniqueIdentities(ids) && AtHome(ids, home)
    ensures x in IdentityTable(ids) ==> x in home
  {
    IdentityTableUnique(ids);
  }

  lemma OwnedAtHome(ids: seq<Identity>, home: map<IdentityID, U32>, x: IdentityID, a: U32)
    requires UniqueIdentities(ids) && AtHome(ids, home) && Unshared(home)
    ensures OwnerOf(ids, a) == Some(x) <==> x in IdentityTable(ids) && x in home && home[x] == a
  {
    IdentityTableUnique(ids);
    OwnerOfMember(ids, a);
    if x in IdentityTable(ids) && x in home && home[x] == a {
      var i :| 0 <= i < |ids| && ids[i].id == x;
      assert ids[i] in ids;
    }
  }

  /** The first n operations get to this identity. */
  predicate Reached(ops: seq<Op>, n: nat, x: IdentityID)
    requires n <= |ops|
  {
    exists i :: 0 <= i < n && Mentions(ops[i], x)
  }

  /** Where a push that stopped half way, and a later complete one, leave one identity. */
  lemma NamedAfterFailed(w: State, prev: Snapshot, failed: Snapshot, next: Snapshot, n: nat,
                         home: map<IdentityID, U32>, x: IdentityID)
    requires UniqueIdentities(prev.identities) && UniqueIdentities(failed.identities)
    requires UniqueIdentities(next.identities)
    requires AtHome(failed.identities, home) && AtHome(next.identities, home) && Unshared(home)
    requires Paired(w, home) && n <= |Ops(Plan(prev, failed))|
    requires x in w.keyByID <==> x in IdentityTable(prev.identities)
    ensures var ops := Ops(Plan(prev, failed));
            var end := ExecAll(Ops(Plan(prev, next)), ExecAll(ops[..n], w));
            var before, after := Get(IdentityTable(prev.identities), x), Get(IdentityTable(next.identities), x);
            && Paired(end, home)
            && (x in end.keyByID <==>
                if before != after then after.Some?
                else if Reached(ops, n, x) then x in IdentityTable(failed.identities)
                else before.Some?)
  {
    var ops, more := Ops(Plan(prev, failed)), Ops(Plan(prev, next));
    PlanMentions(prev, failed, x);
    PlanMentions(prev, next, x);
    PlanAtHome(prev, failed, home);
    PlanAtHome(prev, next, home);
    hide Ops, Plan, Paired, HomeOp, Mentions, IdentityTable, ExecAll;
    assert forall i :: 0 <= i < n ==> ops[..n][i] == ops[i];
    PresentAfter(ops[..n], w, home, x, x in IdentityTable(failed.identities));
    PresentAfter(more, ExecAll(ops[..n], w), home, x, x in IdentityTable(next.identities));
  }

  /** A push that stopped half way towards `failed`, followed by a complete one of `next`: the client
      still diffs against `prev`, so identity_map ends up right exactly when every identity that the
      stopped run brought in or took out is one whose entries in `prev` and `next` differ. */
  lemma IdentitiesAfterFailed(w: State, prev: Snapshot, failed: Snapshot, next: Snapshot, n: nat,
                              home: map<IdentityID, U32>)
    requires UniqueIdentities(prev.identities) && UniqueIdentities(failed.identities)
    requires UniqueIdentities(next.identities)
    requires AtHome(prev.identities, home) && AtHome(failed.identities, home) && AtHome(next.identities, home)
    requires Unshared(home) && Paired(w, home) && MapInSync(w, prev.identities)
    requires n <= |Ops(Plan(prev, failed))|
    ensures MapInSync(ExecAll(Ops(Plan(prev, next)), ExecAll(Ops(Plan(prev, failed))[..n], w)), next.identities) <==>
            forall x: IdentityID ::
              Reached(Ops(Plan(prev, failed)), n, x)
              && (x in IdentityTable(prev.identities) <==> x !in IdentityTable(failed.identities)) ==>
              Get(IdentityTable(prev.identities), x) != Get(IdentityTable(next.identities), x)
  {
    hide Ops, Plan, Paired, IdentityTable, ExecAll, UniqueIdentities, AtHome, Unshared, Reached, MapInSync;
    var ops := Ops(Plan(prev, failed));
    var end := ExecAll(Ops(Plan(prev, next)), ExecAll(ops[..n], w));
    InSyncMeansNamed(w, prev.identities, home);
    forall x: IdentityID
      ensures Paired(end, home)
      ensures (x in end.keyByID <==> x in IdentityTable(next.identities)) <==>
              (Reached(ops, n, x)
               && (x in IdentityTable(prev.identities) <==> x !in IdentityTable(failed.identities)) ==>
               Get(IdentityTable(prev.identities), x) != Get(IdentityTable(next.identities), x))
    {
      NamedAfterFailed(w, prev, failed, next, n, home, x);
    }
    NamedAfterFailed(w, prev, failed, next, n, home, 0);
    InSyncMeansNamed(end, next.identities, home);
  }

  /** The condition can fail: an identity written by a push the agent rejected keeps its address in
      identity_map after the next push, which does not carry it, is accepted. */
  lemma FailedApplyCanLeakIdentity(d: Identity, e: Identity)
    requires d.id != e.id && NetworkKey(d).Some? && NetworkKey(e).Some? && NetworkKey(d) != NetworkKey(e)
    ensures var rejected := Run(Ops(Plan(EMPTY, Snapshot([], [d, e]))), FRESH, 1);
            var accepted := Run(Ops(Plan(EMPTY, EMPTY)), rejected.state, 0);
            && !rejected.ok
            && accepted.ok
            && Get(accepted.state.identityMap, NetworkKey(d).value) == Some(d.id)
  {
    var both := [d, e];
    assert both[..1] == [d] && both[..1][..0] == [];
    assert ChangedIdentities([d], map[]) == [d];
    assert ChangedIdentities(both, map[]) == both;
    var ops := Ops(Plan(EMPTY, Snapshot([], both)));
    assert ops == [PutIdentity(d), PutIdentity(e)];
    assert ops[1..] == [PutIdentity(e)];
    assert Ops(Plan(EMPTY, EMPTY)) == [];
  }

  /** The writer's memory after n operations of a plan, from a memory in step with `prev`. */
  function KeyAfter(prev: seq<Identity>, plan: CommitPlan, n: nat, x: IdentityID): Option<U32>
    requires n <= |Ops(plan)|
  {
    if x in plan.identityDeletes[..DeletesIn(plan, n)] then None
    else Or(AddressOf(plan.identityUpserts[..UpsertsIn(plan, n)], x), AddressOf(prev, x))
  }

  /** The address a delete among those n operations clears. */
  function KeyWritten(prev: seq<Identity>, plan: CommitPlan, n: nat, x: IdentityID): Option<U32>
    requires n <= |Ops(plan)|
  {
    Or(AddressOf(plan.identityUpserts[..UpsertsIn(plan, n)], x), AddressOf(prev, x))
  }

  /** The owner of an address after n operations. */
  ghost function OwnerAfter(prev: seq<Identity>, plan: CommitPlan, n: nat, a: U32): Option<IdentityID>
    requires n <= |Ops(plan)|
  {
    if exists x :: x in plan.identityDeletes[..DeletesIn(plan, n)] && KeyWritten(prev, plan, n, x) == Some(a) then None
    else Or(OwnerOf(plan.identityUpserts[..UpsertsIn(plan, n)], a), OwnerOf(prev, a))
  }

  /** Where a run stopped after n operations leaves the two maps, for moving and shared addresses too. */
  lemma StoppedAt(w: State, prev: seq<Identity>, plan: CommitPlan, n: nat)
    requires MapInSync(w, prev) && KeysInSync(w, prev) && n <= |Ops(plan)|
    ensures var half := ExecAll(Ops(plan)[..n], w);
            && (forall x: IdentityID :: Get(half.keyByID, x) == KeyAfter(prev, plan, n, x))
            && (forall a: U32 :: Get(half.identityMap, a) == OwnerAfter(prev, plan, n, a))
  {
    var i, j := PrefixShape(plan, w, n);
    var iu, gone := plan.identityUpserts[..i], plan.identityDeletes[..j];
    var w1 := ExecAll(PutIdentityOps(iu), w);
    var half := ExecAll(Ops(plan)[..n], w);
    hide Ops, PutIdentityOps, DropIdentityOps, ExecAll;
    forall x: IdentityID
      ensures Get(half.keyByID, x) == KeyAfter(prev, plan, n, x) && Get(w1.keyByID, x) == KeyWritten(prev, plan, n, x)
    {
      PutPhase(iu, w, 0, x);
      DropPhase(gone, w1, 0, x);
    }
    forall a: U32 ensures Get(half.identityMap, a) == OwnerAfter(prev, plan, n, a) {
      PutPhase(iu, w, a, 0);
      DropPhase(gone, w1, a, 0);
      assert Clears(w1, gone, a) <==> exists x :: x in gone && KeyWritten(prev, plan, n, x) == Some(a);
    }
  }

  /** What the later push leaves at an address: cleared if it deletes someone remembered there, else its own
      upsert's, else what the stopped run left. */
  ghost function OwnerInTheEnd(prev: seq<Identity>, stopped: CommitPlan, n: nat, later: CommitPlan, a: U32)
    : Option<IdentityID>
    requires n <= |Ops(stopped)|
  {
    if exists x :: x in later.identityDeletes
                   && Or(AddressOf(later.identityUpserts, x), KeyAfter(prev, stopped, n, x)) == Some(a)
    then None
    else Or(OwnerOf(later.identityUpserts, a), OwnerAfter(prev, stopped, n, a))
  }

  /** A push that stopped half way and a later complete one, for moving and shared addresses too: identity_map
      ends up right exactly when, at every address, the lists alone give the later snapshot's owner. */
  lemma AddressesAfterFailed(w: State, prev: Snapshot, failed: Snapshot, next: Snapshot, n: nat)
    requires MapInSync(w, prev.identities) && KeysInSync(w, prev.identities)
    requires n <= |Ops(Plan(prev, failed))|
    ensures MapInSync(ExecAll(Ops(Plan(prev, next)), ExecAll(Ops(Plan(prev, failed))[..n], w)), next.identities) <==>
            forall a: U32 ::
              OwnerInTheEnd(prev.identities, Plan(prev, failed), n, Plan(prev, next), a) == OwnerOf(next.identities, a)
  {
    var stopped, later := Plan(prev, failed), Plan(prev, next);
    hide Ops, Plan, ExecAll, OwnerAfter, KeyAfter;
    StoppedAt(w, prev.identities, stopped, n);
    var half := ExecAll(Ops(stopped)[..n], w);
    var end := ExecAll(Ops(later), half);
    forall a: U32 ensures Get(end.identityMap, a) == OwnerInTheEnd(prev.identities, stopped, n, later, a) {
      FullPlan(later, half, a, 0);
      EndClears(half, prev.identities, stopped, n, later, a);
    }
  }

  lemma EndClears(half: State, prev: seq<Identity>, stopped: CommitPlan, n: nat, later: CommitPlan, a: U32)
    requires n <= |Ops(stopped)|
    requires forall x: IdentityID :: Get(half.keyByID, x) == KeyAfter(prev, stopped, n, x)
    ensures Clears(ExecAll(PutIdentityOps(later.identityUpserts), half), later.identityDeletes, a) <==>
            exists x :: x in later.identityDeletes
                        && Or(AddressOf(later.identityUpserts, x), KeyAfter(prev, stopped, n, x)) == Some(a)
  {
    hide Ops, ExecAll, PutIdentityOps, KeyAfter, AddressOf;
    var w1 := ExecAll(PutIdentityOps(later.identityUpserts), half);
    forall x: IdentityID
      ensures Get(w1.keyByID, x) == Or(AddressOf(later.identityUpserts, x), KeyAfter(prev, stopped, n, x))
    {
      PutPhase(later.identityUpserts, half, a, x);
    }
  }
}
