/** What a commit plan does to identity_map and to the writer's key memory. */
module IdentityMapRefinement {
  import opened Wire
  import opened Translate
  import opened Diff
  import opened Datapath
  import PolicyMapRefinement

  predicate AllTranslatable(ids: seq<Identity>) {
    forall d :: d in ids ==> NetworkKey(d).Some?
  }

  /** No two entries of the list share an address. */
  predicate DistinctAddresses(ids: seq<Identity>) {
    forall i, j :: 0 <= i < j < |ids| ==> NetworkKey(ids[i]) != NetworkKey(ids[j])
  }

  /** The identity lists the writer can write in full: keyed once and addressed. */
  predicate Addressed(ids: seq<Identity>) {
    UniqueIdentities(ids) && AllTranslatable(ids)
  }

  /** The identity lists the writer can hold exactly: addressed, and no address shared. */
  predicate WellAddressed(ids: seq<Identity>) {
    Addressed(ids) && DistinctAddresses(ids)
  }

  /** The identity a list places at an address; the last entry wins. */
  function OwnerOf(ids: seq<Identity>, a: U32): Option<IdentityID> {
    if ids == [] then None
    else if NetworkKey(ids[|ids| - 1]) == Some(a) then Some(ids[|ids| - 1].id)
    else OwnerOf(ids[..|ids| - 1], a)
  }

  /** The address a list gives an identity; the last usable entry wins. */
  function AddressOf(ids: seq<Identity>, id: IdentityID): Option<U32> {
    if ids == [] then None
    else if ids[|ids| - 1].id == id && NetworkKey(ids[|ids| - 1]).Some? then NetworkKey(ids[|ids| - 1])
    else AddressOf(ids[..|ids| - 1], id)
  }

  /** identity_map is exactly address-to-ID of the list. */
  ghost predicate MapInSync(w: State, ids: seq<Identity>) {
    forall a: U32 :: Get(w.identityMap, a) == OwnerOf(ids, a)
  }

  /** The writer remembers exactly the list's addresses. */
  ghost predicate KeysInSync(w: State, ids: seq<Identity>) {
    forall id: IdentityID :: Get(w.keyByID, id) == AddressOf(ids, id)
  }

  function Or<T>(x: Option<T>, y: Option<T>): Option<T> {
    if x.Some? then x else y
  }

  lemma {:induction false} PutPhase(ids: seq<Identity>, w: State, a: U32, id: IdentityID)
    ensures var w' := ExecAll(PutIdentityOps(ids), w);
            && Get(w'.identityMap, a) == Or(OwnerOf(ids, a), Get(w.identityMap, a))
            && Get(w'.keyByID, id) == Or(AddressOf(ids, id), Get(w.keyByID, id))
  {
    if ids != [] {
      var front, d := ids[..|ids| - 1], ids[|ids| - 1];
      PutPhase(front, w, a, id);
      assert PutIdentityOps(ids) == PutIdentityOps(front) + [PutIdentity(d)];
      PolicyMapRefinement.ExecAllAppend(PutIdentityOps(front), [PutIdentity(d)], w);
      assert [PutIdentity(d)][1..] == [];
    }
  }

  /** Deleting these identities clears this address. */
  predicate Clears(w: State, gone: seq<IdentityID>, a: U32) {
    exists x :: x in gone && Get(w.keyByID, x) == Some(a)
  }

  lemma {:induction false} DropPhase(gone: seq<IdentityID>, w: State, a: U32, id: IdentityID)
    ensures var w' := ExecAll(DropIdentityOps(gone), w);
            && Get(w'.identityMap, a) == (if Clears(w, gone, a) then None else Get(w.identityMap, a))
            && Get(w'.keyByID, id) == (if id in gone then None else Get(w.keyByID, id))
  {
    if gone != [] {
      var ops := DropIdentityOps(gone);
      assert ops[1..] == DropIdentityOps(gone[1..]);
      var w1 := Exec(ops[0], w);
      DropPhase(gone[1..], w1, a, id);
      assert forall x :: x in gone <==> x == gone[0] || x in gone[1..];
      assert forall x :: Get(w1.keyByID, x) == if x == gone[0] then None else Get(w.keyByID, x);
      if Get(w.keyByID, gone[0]) != Some(a) {
        assert Clears(w1, gone[1..], a) <==> Clears(w, gone, a);
      }
    }
  }

  lemma {:induction false} PolicyOpsFrame(ops: seq<Op>, w: State)
    requires forall i :: 0 <= i < |ops| ==> ops[i].PutPolicy? || ops[i].DropPolicy?
    ensures ExecAll(ops, w).identityMap == w.identityMap && ExecAll(ops, w).keyByID == w.keyByID
  {
    if ops != [] {
      PolicyOpsFrame(ops[1..], Exec(ops[0], w));
    }
  }

  predicate SameIdentities(a: State, b: State) {
    a.identityMap == b.identityMap && a.keyByID == b.keyByID
  }

  lemma {:induction false} SameIdentitiesDrop(gone: seq<IdentityID>, a: State, b: State)
    requires SameIdentities(a, b)
    ensures SameIdentities(ExecAll(DropIdentityOps(gone), a), ExecAll(DropIdentityOps(gone), b))
  {
    if gone != [] {
      var ops := DropIdentityOps(gone);
      assert ops[1..] == DropIdentityOps(gone[1..]);
      SameIdentitiesDrop(gone[1..], Exec(ops[0], a), Exec(ops[0], b));
    }
  }

  /** How many identity upserts, and how many identity deletes, the first n operations of a plan hold. */
  function UpsertsIn(plan: CommitPlan, n: nat): nat {
    if n <= |plan.identityUpserts| then n else |plan.identityUpserts|
  }

  function DeletesIn(plan: CommitPlan, n: nat): nat {
    var before := |plan.identityUpserts| + |PolicyOps(plan)|;
    if n <= before then 0 else n - before
  }

  /** The identity side of any prefix of a plan: some upserts, and deletes only after all of them. */
  lemma PrefixShape(plan: CommitPlan, w: State, n: nat) returns (i: nat, j: nat)
    requires n <= |Ops(plan)|
    ensures i == UpsertsIn(plan, n) && j == DeletesIn(plan, n)
    ensures i <= |plan.identityUpserts| && j <= |plan.identityDeletes|
    ensures j > 0 ==> i == |plan.identityUpserts|
    ensures n == |Ops(plan)| ==> i == |plan.identityUpserts| && j == |plan.identityDeletes|
    ensures SameIdentities(
      ExecAll(Ops(plan)[..n], w),
      ExecAll(DropIdentityOps(plan.identityDeletes[..j]), ExecAll(PutIdentityOps(plan.identityUpserts[..i]), w)))
  {
    var iu, po, dr := PutIdentityOps(plan.identityUpserts), PolicyOps(plan), DropIdentityOps(plan.identityDeletes);
    var all := plan.identityUpserts[..|iu|];
    assert all == plan.identityUpserts;
    if n <= |iu| {
      i, j := n, 0;
      assert Ops(plan)[..n] == PutIdentityOps(plan.identityUpserts[..n]);
      assert DropIdentityOps(plan.identityDeletes[..0]) == [];
      if |Ops(plan)| == |iu| { assert |dr| == 0; }
    } else {
      i := |iu|;
      var m := n - |iu|;
      var tail := (po + dr)[..m];
      assert Ops(plan)[..n] == iu + tail;
      PolicyMapRefinement.ExecAllAppend(iu, tail, w);
      var w1 := ExecAll(iu, w);
      if m <= |po| {
        j := 0;
        assert tail == po[..m];
        PolicyOpsFrame(tail, w1);
        assert DropIdentityOps(plan.identityDeletes[..0]) == [];
      } else {
        j := m - |po|;
        assert tail == po + dr[..j];
        assert dr[..j] == DropIdentityOps(plan.identityDeletes[..j]);
        PolicyMapRefinement.ExecAllAppend(po, dr[..j], w1);
        PolicyOpsFrame(po, w1);
        SameIdentitiesDrop(plan.identityDeletes[..j], ExecAll(po, w1), w1);
      }
    }
  }

  lemma {:induction false} OwnerOfMember(ids: seq<Identity>, a: U32)
    ensures OwnerOf(ids, a).Some? ==> exists d :: d in ids && NetworkKey(d) == Some(a) && OwnerOf(ids, a) == Some(d.id)
    ensures OwnerOf(ids, a).None? ==> forall d :: d in ids ==> NetworkKey(d) != Some(a)
  {
    if ids != [] {
      assert ids == ids[..|ids| - 1] + [ids[|ids| - 1]];
      OwnerOfMember(ids[..|ids| - 1], a);
    }
  }

  lemma {:induction false} AddressOfMember(ids: seq<Identity>, id: IdentityID)
    ensures AddressOf(ids, id).Some? ==> exists d :: d in ids && d.id == id && AddressOf(ids, id) == NetworkKey(d)
    ensures AddressOf(ids, id).None? ==> forall d :: d in ids && d.id == id ==> NetworkKey(d).None?
  {
    if ids != [] {
      assert ids == ids[..|ids| - 1] + [ids[|ids| - 1]];
      AddressOfMember(ids[..|ids| - 1], id);
    }
  }

  /** In a well-addressed list the two views are inverse to each other. */
  lemma Inverse(ids: seq<Identity>, a: U32, id: IdentityID)
    requires WellAddressed(ids)
    ensures OwnerOf(ids, a) == Some(id) <==> AddressOf(ids, id) == Some(a)
    ensures forall d :: d in ids && d.id == id ==> AddressOf(ids, id) == NetworkKey(d)
  {
    OwnerOfMember(ids, a);
    AddressOfMember(ids, id);
  }

  /** Exactly when a push leaves identity_map right: the address of every identity that goes away
      is not taken over by the new list, and the old address of every identity that stays is. */
  ghost predicate AddressesCarryOver(prev: seq<Identity>, next: seq<Identity>)
    requires AllTranslatable(prev)
  {
    forall o :: o in prev ==>
      (AddressOf(next, o.id).Some? <==> OwnerOf(next, NetworkKey(o).value).Some?)
  }

  /** A complete run of any plan, at one address and one identity. */
  lemma FullPlan(plan: CommitPlan, w: State, a: U32, id: IdentityID)
    ensures var w' := ExecAll(Ops(plan), w);
            var w1 := ExecAll(PutIdentityOps(plan.identityUpserts), w);
            && Get(w'.identityMap, a) == (if Clears(w1, plan.identityDeletes, a) then None
                                          else Or(OwnerOf(plan.identityUpserts, a), Get(w.identityMap, a)))
            && Get(w'.keyByID, id) == (if id in plan.identityDeletes then None
                                       else Or(AddressOf(plan.identityUpserts, id), Get(w.keyByID, id)))
  {
    var n := |Ops(plan)|;
    var i, j := PrefixShape(plan, w, n);
    assert Ops(plan)[..n] == Ops(plan);
    assert plan.identityUpserts[..i] == plan.identityUpserts && plan.identityDeletes[..j] == plan.identityDeletes;
    PutPhase(plan.identityUpserts, w, a, id);
    DropPhase(plan.identityDeletes, ExecAll(PutIdentityOps(plan.identityUpserts), w), a, id);
  }

  /** Writing only the changed entries over the old ones gives every identity its new address. */
  lemma ChangedAddresses(prev: seq<Identity>, next: seq<Identity>, id: IdentityID)
    requires Addressed(prev) && Addressed(next)
    ensures var iu := ChangedIdentities(next, IdentityTable(prev));
            && Or(AddressOf(iu, id), AddressOf(prev, id)) == Or(AddressOf(next, id), AddressOf(prev, id))
            && (AddressOf(iu, id).Some? ==> AddressOf(next, id).Some?)
  {
    var iu := ChangedIdentities(next, IdentityTable(prev));
    ChangedIdentitiesMembers(next, IdentityTable(prev));
    IdentityTableUnique(prev);
    AddressOfMember(iu, id);
    AddressOfMember(next, id);
    AddressOfMember(prev, id);
  }

  /** And it reads like the new list at every address the new list speaks of. */
  lemma ChangedOwners(prev: seq<Identity>, next: seq<Identity>, a: U32)
    requires WellAddressed(prev) && WellAddressed(next)
    ensures var iu := ChangedIdentities(next, IdentityTable(prev));
            && Or(OwnerOf(iu, a), OwnerOf(prev, a)) == Or(OwnerOf(next, a), OwnerOf(prev, a))
            && (OwnerOf(iu, a).Some? ==> OwnerOf(iu, a) == OwnerOf(next, a))
  {
    var iu := ChangedIdentities(next, IdentityTable(prev));
    ChangedIdentitiesMembers(next, IdentityTable(prev));
    IdentityTableUnique(prev);
    OwnerOfMember(iu, a);
    OwnerOfMember(next, a);
    OwnerOfMember(prev, a);
  }

  /** The identities a plan deletes are those the new list no longer names. */
  lemma GoneIffUnnamed(prev: seq<Identity>, next: seq<Identity>, id: IdentityID)
    requires Addressed(prev) && Addressed(next)
    ensures id in GoneIdentities(prev, IdentityTable(next).Keys) <==>
            AddressOf(prev, id).Some? && AddressOf(next, id).None?
  {
    GoneIdentitiesMembers(prev, IdentityTable(next).Keys);
    IdentityTableUnique(next);
    AddressOfMember(prev, id);
    AddressOfMember(next, id);
  }

  /** An identity that the new list no longer names had this address. */
  predicate Vacated(prev: seq<Identity>, next: seq<Identity>, a: U32) {
    exists o :: o in prev && NetworkKey(o) == Some(a) && AddressOf(next, o.id).None?
  }

  lemma DeletedFrom(w: State, prev: seq<Identity>, next: seq<Identity>, a: U32, x: IdentityID)
    requires Addressed(prev) && Addressed(next) && KeysInSync(w, prev)
    ensures var w1 := ExecAll(PutIdentityOps(ChangedIdentities(next, IdentityTable(prev))), w);
            x in GoneIdentities(prev, IdentityTable(next).Keys) && Get(w1.keyByID, x) == Some(a) <==>
            AddressOf(prev, x) == Some(a) && AddressOf(next, x).None?
  {
    hide Addressed, ExecAll, PutIdentityOps, IdentityTable, ChangedIdentities, GoneIdentities, AddressOf;
    GoneIffUnnamed(prev, next, x);
    PutPhase(ChangedIdentities(next, IdentityTable(prev)), w, a, x);
    ChangedAddresses(prev, next, x);
  }

  /** After the upserts, the deletes clear exactly the old addresses of the identities that go. */
  lemma ClearsIffVacated(w: State, prev: seq<Identity>, next: seq<Identity>, a: U32)
    requires Addressed(prev) && Addressed(next)
    requires KeysInSync(w, prev)
    ensures var w1 := ExecAll(PutIdentityOps(ChangedIdentities(next, IdentityTable(prev))), w);
            Clears(w1, GoneIdentities(prev, IdentityTable(next).Keys), a) <==> Vacated(prev, next, a)
  {
    hide ExecAll, PutIdentityOps, IdentityTable, ChangedIdentities, GoneIdentities, AddressOf, KeysInSync;
    var gone := GoneIdentities(prev, IdentityTable(next).Keys);
    var w1 := ExecAll(PutIdentityOps(ChangedIdentities(next, IdentityTable(prev))), w);
    if x :| x in gone && Get(w1.keyByID, x) == Some(a) {
      DeletedFrom(w, prev, next, a, x);
      AddressOfMember(prev, x);
    }
    if o :| o in prev && NetworkKey(o) == Some(a) && AddressOf(next, o.id).None? {
      DeletedFrom(w, prev, next, a, o.id);
      AddressOfMember(prev, o.id);
    }
  }

  /** What a complete push leaves at one address, and that the writer's memory is right after it. */
  lemma AfterPush(w: State, prev: Snapshot, next: Snapshot, a: U32, id: IdentityID)
    requires Addressed(prev.identities) && Addressed(next.identities)
    requires MapInSync(w, prev.identities) && KeysInSync(w, prev.identities)
    ensures var w' := ExecAll(Ops(Plan(prev, next)), w);
            var ps, ns := prev.identities, next.identities;
            && Get(w'.keyByID, id) == AddressOf(ns, id)
            && Get(w'.identityMap, a) == (if Vacated(ps, ns, a) then None
                                          else Or(OwnerOf(ChangedIdentities(ns, IdentityTable(ps)), a), OwnerOf(ps, a)))
  {
    var ps, ns := prev.identities, next.identities;
    FullPlan(Plan(prev, next), w, a, id);
    ChangedAddresses(ps, ns, id);
    GoneIffUnnamed(ps, ns, id);
    ClearsIffVacated(w, ps, ns, a);
  }

  /** The new list's entry for an identity is new or differs from the old one. */
  predicate Rewritten(prev: seq<Identity>, d: Identity) {
    Get(IdentityTable(prev), d.id) != Some(d)
  }

  predicate RewrittenIn(prev: seq<Identity>, next: seq<Identity>, x: IdentityID) {
    exists d :: d in next && d.id == x && Rewritten(prev, d)
  }

  predicate RewrittenAt(prev: seq<Identity>, next: seq<Identity>, a: U32) {
    exists d :: d in next && NetworkKey(d) == Some(a) && Rewritten(prev, d)
  }

  /** The condition at one address, shared or not: if the new list leaves it free, it was free before or
      is vacated; if the new list gives it to someone, no one who goes had it, and the last entry to
      claim it is rewritten, or nothing there is and it had the address before. */
  predicate SettledAt(prev: seq<Identity>, next: seq<Identity>, a: U32) {
    match OwnerOf(next, a)
    case None => OwnerOf(prev, a).None? || Vacated(prev, next, a)
    case Some(x) =>
      && !Vacated(prev, next, a)
      && (RewrittenIn(prev, next, x) || (OwnerOf(prev, a) == Some(x) && !RewrittenAt(prev, next, a)))
  }

  lemma ChangedClaims(next: seq<Identity>, prev: seq<Identity>, a: U32)
    requires UniqueIdentities(next)
    ensures OwnerOf(ChangedIdentities(next, IdentityTable(prev)), a).Some? <==> RewrittenAt(prev, next, a)
  {
    ChangedIdentitiesMembers(next, IdentityTable(prev));
    OwnerOfMember(ChangedIdentities(next, IdentityTable(prev)), a);
  }

  lemma ChangedStep(front: seq<Identity>, d: Identity, prev: seq<Identity>, a: U32, x: IdentityID)
    ensures OwnerOf(ChangedIdentities(front + [d], IdentityTable(prev)), a) ==
            if Rewritten(prev, d) && NetworkKey(d) == Some(a) then Some(d.id)
            else OwnerOf(ChangedIdentities(front, IdentityTable(prev)), a)
    ensures RewrittenIn(prev, front + [d], x) <==> RewrittenIn(prev, front, x) || (d.id == x && Rewritten(prev, d))
    ensures OwnerOf(front + [d], a) == if NetworkKey(d) == Some(a) then Some(d.id) else OwnerOf(front, a)
  {
    var next, table := front + [d], IdentityTable(prev);
    assert next[..|front|] == front;
    var iu := ChangedIdentities(next, table);
    if Rewritten(prev, d) {
      assert iu[..|iu| - 1] == ChangedIdentities(front, table);
    } else {
      assert iu == ChangedIdentities(front, table);
    }
  }

  lemma OwnersListed(front: seq<Identity>, prev: seq<Identity>, d: Identity, a: U32)
    requires UniqueIdentities(front + [d])
    ensures OwnerOf(ChangedIdentities(front, IdentityTable(prev)), a) != Some(d.id) && OwnerOf(front, a) != Some(d.id)
    ensures !RewrittenIn(prev, front, d.id)
  {
    assert forall i :: 0 <= i < |front| ==> (front + [d])[i] == front[i];
    assert (front + [d])[|front|] == d;
    assert UniqueIdentities(front);
    ChangedIdentitiesMembers(front, IdentityTable(prev));
    OwnerOfMember(ChangedIdentities(front, IdentityTable(prev)), a);
    OwnerOfMember(front, a);
  }

  /** The last changed claimant of an address is the last claimant exactly when that one changed. */
  lemma {:induction false} LastChanged(next: seq<Identity>, prev: seq<Identity>, a: U32)
    requires UniqueIdentities(next) && OwnerOf(next, a).Some?
    ensures OwnerOf(ChangedIdentities(next, IdentityTable(prev)), a) == OwnerOf(next, a) <==>
            RewrittenIn(prev, next, OwnerOf(next, a).value)
  {
    var front, d := next[..|next| - 1], next[|next| - 1];
    assert next == front + [d];
    hide RewrittenIn, Rewritten, IdentityTable, ChangedIdentities;
    ChangedStep(front, d, prev, a, OwnerOf(next, a).value);
    OwnersListed(front, prev, d, a);
    if NetworkKey(d) != Some(a) {
      LastChanged(front, prev, a);
    }
  }

  lemma SettledExactly(prev: seq<Identity>, next: seq<Identity>, a: U32)
    requires UniqueIdentities(next)
    ensures SettledAt(prev, next, a) <==>
            OwnerOf(next, a) == (if Vacated(prev, next, a) then None
                                 else Or(OwnerOf(ChangedIdentities(next, IdentityTable(prev)), a), OwnerOf(prev, a)))
  {
    ChangedClaims(next, prev, a);
    FreeIsUnclaimed(prev, next, a);
    hide Vacated, RewrittenIn, RewrittenAt, IdentityTable, ChangedIdentities;
    if OwnerOf(next, a).Some? {
      LastChanged(next, prev, a);
    }
  }

  lemma FreeIsUnclaimed(prev: seq<Identity>, next: seq<Identity>, a: U32)
    ensures OwnerOf(next, a).None? ==> !RewrittenAt(prev, next, a)
  {
    OwnerOfMember(next, a);
  }

  /** One complete push, of lists that may share addresses: the writer's memory is always right
      afterwards, and identity_map is right exactly when every address is settled. */
  lemma ApplyRefinesExactlyWhen(w: State, prev: Snapshot, next: Snapshot)
    requires Addressed(prev.identities) && Addressed(next.identities)
    requires MapInSync(w, prev.identities) && KeysInSync(w, prev.identities)
    ensures KeysInSync(ExecAll(Ops(Plan(prev, next)), w), next.identities)
    ensures MapInSync(ExecAll(Ops(Plan(prev, next)), w), next.identities) <==>
            forall a: U32 :: SettledAt(prev.identities, next.identities, a)
  {
    var w' := ExecAll(Ops(Plan(prev, next)), w);
    var ns := next.identities;
    forall id: IdentityID ensures Get(w'.keyByID, id) == AddressOf(ns, id) {
      AfterPush(w, prev, next, 0, id);
    }
    forall a: U32 ensures Get(w'.identityMap, a) == OwnerOf(ns, a) <==> SettledAt(prev.identities, ns, a) {
      AfterPush(w, prev, next, a, 0);
      SettledExactly(prev.identities, ns, a);
    }
  }

  /** The same where no address is shared: identity_map is right exactly when the addresses carry over. */
  lemma ApplyRefinesIff(w: State, prev: Snapshot, next: Snapshot)
    requires WellAddressed(prev.identities) && WellAddressed(next.identities)
    requires MapInSync(w, prev.identities) && KeysInSync(w, prev.identities)
    ensures KeysInSync(ExecAll(Ops(Plan(prev, next)), w), next.identities)
    ensures MapInSync(ExecAll(Ops(Plan(prev, next)), w), next.identities) <==>
            AddressesCarryOver(prev.identities, next.identities)
  {
    var w' := ExecAll(Ops(Plan(prev, next)), w);
    var ps, ns := prev.identities, next.identities;
    forall id: IdentityID ensures Get(w'.keyByID, id) == AddressOf(ns, id) {
      AfterPush(w, prev, next, 0, id);
    }
    forall a: U32
      ensures Get(w'.identityMap, a) == OwnerOf(ns, a) <==> CarriesOverAt(ps, ns, a)
    {
      AfterPush(w, prev, next, a, 0);
      ChangedOwners(ps, ns, a);
      VacatedByOwner(ps, ns, a);
    }
    CarryOverPointwise(ps, ns);
  }

  lemma VacatedByOwner(prev: seq<Identity>, next: seq<Identity>, a: U32)
    requires WellAddressed(prev)
    ensures Vacated(prev, next, a) <==> OwnerOf(prev, a).Some? && AddressOf(next, OwnerOf(prev, a).value).None?
  {
    OwnerOfMember(prev, a);
  }

  /** What a complete push makes of an address that was owned: cleared when its owner goes, whoever claims
      it now; otherwise its new owner's, or still its old one's when no one claims it. */
  lemma OwnedAddressAfter(w: State, prev: Snapshot, next: Snapshot, a: U32, id: IdentityID)
    requires WellAddressed(prev.identities) && WellAddressed(next.identities)
    requires MapInSync(w, prev.identities) && KeysInSync(w, prev.identities)
    requires OwnerOf(prev.identities, a) == Some(id)
    ensures Get(ExecAll(Ops(Plan(prev, next)), w).identityMap, a) ==
            if AddressOf(next.identities, id).None? then None else Or(OwnerOf(next.identities, a), Some(id))
  {
    AfterPush(w, prev, next, a, id);
    VacatedByOwner(prev.identities, next.identities, a);
    ChangedOwners(prev.identities, next.identities, a);
  }

  /** An identity that stays but gives up its address keeps it in the map when no one else claims it. */
  lemma MovedKeepsOldAddress(w: State, prev: Snapshot, next: Snapshot, a: U32, id: IdentityID)
    requires WellAddressed(prev.identities) && WellAddressed(next.identities)
    requires MapInSync(w, prev.identities) && KeysInSync(w, prev.identities)
    requires OwnerOf(prev.identities, a) == Some(id)
    requires AddressOf(next.identities, id).Some? && OwnerOf(next.identities, a).None?
    ensures var w' := ExecAll(Ops(Plan(prev, next)), w);
            Get(w'.identityMap, a) == Some(id) && !MapInSync(w', next.identities)
  {
    OwnedAddressAfter(w, prev, next, a, id);
    hide OwnerOf, AddressOf, WellAddressed, ExecAll, Ops, Plan;
  }

  /** An address whose owner goes is lost to whoever takes it over in the same push. */
  lemma TakenOverAddressLost(w: State, prev: Snapshot, next: Snapshot, a: U32, id: IdentityID)
    requires WellAddressed(prev.identities) && WellAddressed(next.identities)
    requires MapInSync(w, prev.identities) && KeysInSync(w, prev.identities)
    requires OwnerOf(prev.identities, a) == Some(id)
    requires AddressOf(next.identities, id).None? && OwnerOf(next.identities, a).Some?
    ensures var w' := ExecAll(Ops(Plan(prev, next)), w);
            Get(w'.identityMap, a) == None && !MapInSync(w', next.identities)
  {
    OwnedAddressAfter(w, prev, next, a, id);
    hide OwnerOf, AddressOf, WellAddressed, ExecAll, Ops, Plan;
  }

  predicate CarriesOverAt(prev: seq<Identity>, next: seq<Identity>, a: U32) {
    OwnerOf(prev, a).Some? ==>
      (AddressOf(next, OwnerOf(prev, a).value).Some? <==> OwnerOf(next, a).Some?)
  }

  lemma CarryOverPointwise(prev: seq<Identity>, next: seq<Identity>)
    requires WellAddressed(prev)
    ensures AddressesCarryOver(prev, next) <==> forall a: U32 :: CarriesOverAt(prev, next, a)
  {
    if AddressesCarryOver(prev, next) {
      forall a: U32 ensures CarriesOverAt(prev, next, a) {
        OwnerOfMember(prev, a);
      }
    } else {
      var o :| o in prev && !(AddressOf(next, o.id).Some? <==> OwnerOf(next, NetworkKey(o).value).Some?);
      Inverse(prev, NetworkKey(o).value, o.id);
      assert !CarriesOverAt(prev, next, NetworkKey(o).value);
    }
  }

  /** An identity never changes address, and no address is ever shared. */
  ghost predicate AtHome(ids: seq<Identity>, home: map<IdentityID, U32>) {
    forall d :: d in ids ==> d.id in home && NetworkKey(d) == Some(home[d.id])
  }

  ghost predicate Unshared(home: map<IdentityID, U32>) {
    forall x, y :: x in home && y in home && home[x] == home[y] ==> x == y
  }

  /** Stable unshared addresses always carry over. */
  lemma StableCarriesOver(prev: seq<Identity>, next: seq<Identity>, home: map<IdentityID, U32>)
    requires UniqueIdentities(prev) && UniqueIdentities(next)
    requires AtHome(prev, home) && AtHome(next, home) && Unshared(home)
    ensures WellAddressed(prev) && WellAddressed(next) && AddressesCarryOver(prev, next)
  {
    forall o | o in prev
      ensures AddressOf(next, o.id).Some? <==> OwnerOf(next, NetworkKey(o).value).Some?
    {
      AddressOfMember(next, o.id);
      OwnerOfMember(next, NetworkKey(o).value);
    }
  }

  /** No deleted identity's address is claimed by an upsert of the same plan. */
  ghost predicate NoTakeover(w: State, plan: CommitPlan) {
    forall x :: x in plan.identityDeletes && x in w.keyByID ==> OwnerOf(plan.identityUpserts, w.keyByID[x]).None?
  }

  /** Where any prefix of a plan leaves one address and one identity. */
  lemma PrefixReads(plan: CommitPlan, w: State, n: nat, a: U32, id: IdentityID) returns (j: nat)
    requires n <= |Ops(plan)|
    requires forall x :: x in plan.identityDeletes ==> AddressOf(plan.identityUpserts, x).None?
    ensures j <= |plan.identityDeletes|
    ensures n == |Ops(plan)| ==> j == |plan.identityDeletes|
    ensures var p := ExecAll(Ops(plan)[..n], w);
            && (OwnerOf(plan.identityUpserts, a).None? ==>
                  Get(p.identityMap, a) ==
                  if Clears(w, plan.identityDeletes[..j], a) then None else Get(w.identityMap, a))
            && (id in plan.identityDeletes ==>
                  Get(p.keyByID, id) == if id in plan.identityDeletes[..j] then None else Get(w.keyByID, id))
            && (id !in plan.identityDeletes && AddressOf(plan.identityUpserts, id).None? ==>
                  Get(p.keyByID, id) == Get(w.keyByID, id))
  {
    var iu, gone := plan.identityUpserts, plan.identityDeletes;
    var i, j' := PrefixShape(plan, w, n);
    j := j';
    var w1 := ExecAll(PutIdentityOps(iu[..i]), w);
    forall x: IdentityID | x in gone ensures Get(w1.keyByID, x) == Get(w.keyByID, x) {
      PrefixNames(iu, i, a, x);
      PutPhase(iu[..i], w, a, x);
    }
    assert forall x :: x in gone[..j] ==> x in gone;
    assert Clears(w1, gone[..j], a) <==> Clears(w, gone[..j], a);
    PrefixNames(iu, i, a, id);
    PutPhase(iu[..i], w, a, id);
    DropPhase(gone[..j], w1, a, id);
  }

  lemma PrefixNames(ids: seq<Identity>, i: nat, a: U32, id: IdentityID)
    requires i <= |ids|
    ensures OwnerOf(ids, a).None? ==> OwnerOf(ids[..i], a).None?
    ensures AddressOf(ids, id).None? ==> AddressOf(ids[..i], id).None?
  {
    OwnerOfMember(ids, a);
    OwnerOfMember(ids[..i], a);
    AddressOfMember(ids, id);
    AddressOfMember(ids[..i], id);
  }

  /** Retrying a plan from a half-way state ends like one clean run when nothing is taken over. */
  lemma RetryIdentities(plan: CommitPlan, w: State, n: nat)
    requires n <= |Ops(plan)|
    requires forall x :: x in plan.identityDeletes ==> AddressOf(plan.identityUpserts, x).None?
    requires NoTakeover(w, plan)
    ensures SameIdentities(ExecAll(Ops(plan), ExecAll(Ops(plan)[..n], w)), ExecAll(Ops(plan), w))
  {
    var p := ExecAll(Ops(plan)[..n], w);
    var q, f := ExecAll(Ops(plan), p), ExecAll(Ops(plan), w);
    forall a: U32, id: IdentityID
      ensures Get(q.identityMap, a) == Get(f.identityMap, a) && Get(q.keyByID, id) == Get(f.keyByID, id)
    {
      RetryAt(plan, w, n, a, id);
    }
    SameLookups(q.identityMap, f.identityMap);
    SameLookups(q.keyByID, f.keyByID);
  }

  /** Which addresses the deletes clear does not depend on the upserts, nor on keys already dropped. */
  lemma ClearsFrom(plan: CommitPlan, w: State, a: U32)
    requires forall x :: x in plan.identityDeletes ==> AddressOf(plan.identityUpserts, x).None?
    ensures Clears(ExecAll(PutIdentityOps(plan.identityUpserts), w), plan.identityDeletes, a) <==>
            Clears(w, plan.identityDeletes, a)
  {
    forall x: IdentityID | x in plan.identityDeletes
      ensures Get(ExecAll(PutIdentityOps(plan.identityUpserts), w).keyByID, x) == Get(w.keyByID, x)
    {
      PutPhase(plan.identityUpserts, w, a, x);
    }
  }

  lemma RetryAt(plan: CommitPlan, w: State, n: nat, a: U32, id: IdentityID)
    requires n <= |Ops(plan)|
    requires forall x :: x in plan.identityDeletes ==> AddressOf(plan.identityUpserts, x).None?
    requires NoTakeover(w, plan)
    ensures var q, f := ExecAll(Ops(plan), ExecAll(Ops(plan)[..n], w)), ExecAll(Ops(plan), w);
            Get(q.identityMap, a) == Get(f.identityMap, a) && Get(q.keyByID, id) == Get(f.keyByID, id)
  {
    var iu, gone := plan.identityUpserts, plan.identityDeletes;
    var p := ExecAll(Ops(plan)[..n], w);
    FullPlan(plan, p, a, id);
    FullPlan(plan, w, a, id);
    var j := PrefixReads(plan, w, n, a, id);
    ClearsFrom(plan, p, a);
    ClearsFrom(plan, w, a);
    forall x: IdentityID | x in gone
      ensures Get(p.keyByID, x) == None || Get(p.keyByID, x) == Get(w.keyByID, x)
      ensures Get(w.keyByID, x) == Some(a) && Get(p.keyByID, x) == None ==>
                Clears(w, gone[..j], a) || Get(p.identityMap, a).None?
    {
      var _ := PrefixReads(plan, w, n, a, x);
    }
  }

  /** The condition is exact: where an address is taken over, repeating even a finished run goes wrong. */
  lemma TakeoverBreaksRetry(plan: CommitPlan, w: State, x: IdentityID)
    requires forall y :: y in plan.identityDeletes ==> AddressOf(plan.identityUpserts, y).None?
    requires x in plan.identityDeletes && x in w.keyByID && OwnerOf(plan.identityUpserts, w.keyByID[x]).Some?
    ensures var clean := ExecAll(Ops(plan), w);
            ExecAll(Ops(plan), clean).identityMap != clean.identityMap
  {
    var clean := ExecAll(Ops(plan), w);
    var a := w.keyByID[x];
    FullPlan(plan, w, a, x);
    ClearsFrom(plan, w, a);
    FullPlan(plan, clean, a, x);
    ClearsFrom(plan, clean, a);
    forall y: IdentityID | y in plan.identityDeletes ensures Get(clean.keyByID, y) == None {
      FullPlan(plan, w, a, y);
    }
    assert Clears(w, plan.identityDeletes, a);
    assert !Clears(clean, plan.identityDeletes, a);
  }

  /** Stable unshared addresses make a diff's plan safe to retry. */
  lemma StablePlanRetries(w: State, prev: Snapshot, next: Snapshot, home: map<IdentityID, U32>)
    requires UniqueIdentities(prev.identities) && UniqueIdentities(next.identities)
    requires AtHome(prev.identities, home) && AtHome(next.identities, home) && Unshared(home)
    requires KeysInSync(w, prev.identities)
    ensures var plan := Plan(prev, next);
            && (forall x :: x in plan.identityDeletes ==> AddressOf(plan.identityUpserts, x).None?)
            && NoTakeover(w, plan)
  {
    var ps, ns := prev.identities, next.identities;
    var plan := Plan(prev, next);
    StableCarriesOver(ps, ns, home);
    forall x | x in plan.identityDeletes
      ensures AddressOf(plan.identityUpserts, x).None?
      ensures x in w.keyByID ==> OwnerOf(plan.identityUpserts, w.keyByID[x]).None?
    {
      GoneIffUnnamed(ps, ns, x);
      ChangedAddresses(ps, ns, x);
      if x in w.keyByID {
        var a := w.keyByID[x];
        assert Get(w.keyByID, x) == Some(a);
        ChangedOwners(ps, ns, a);
        Inverse(ps, a, x);
        CarryOverPointwise(ps, ns);
        assert CarriesOverAt(ps, ns, a);
      }
    }
  }
}
