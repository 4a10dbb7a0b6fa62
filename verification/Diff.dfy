/** The agent's snapshot diff (internal/agent/xds/diff.go). */
module Diff {
  import opened Wire

  /** The agent's desired state, accumulated across the two xDS channels. */
  datatype Snapshot = Snapshot(policies: seq<PolicyRule>, identities: seq<Identity>)

  const EMPTY := Snapshot([], [])

  /** Keyed view of a policy list; the last entry for a key wins, as in a Go map fill. */
  function PolicyTable(ps: seq<PolicyRule>): map<PolicyRuleKey, PolicyRule> {
    if ps == [] then map[]
    else PolicyTable(ps[..|ps| - 1])[ps[|ps| - 1].key := ps[|ps| - 1]]
  }

  function IdentityTable(ids: seq<Identity>): map<IdentityID, Identity> {
    if ids == [] then map[]
    else IdentityTable(ids[..|ids| - 1])[ids[|ids| - 1].id := ids[|ids| - 1]]
  }

  predicate UniquePolicies(ps: seq<PolicyRule>) {
    forall i, j :: 0 <= i < j < |ps| ==> ps[i].key != ps[j].key
  }

  predicate UniqueIdentities(ids: seq<Identity>) {
    forall i, j :: 0 <= i < j < |ids| ==> ids[i].id != ids[j].id
  }

  /** The entries of `next` that are new in or different from `prev`, in order. */
  function ChangedPolicies(next: seq<PolicyRule>, prev: map<PolicyRuleKey, PolicyRule>): seq<PolicyRule> {
    if next == [] then []
    else
      var p := next[|next| - 1];
      ChangedPolicies(next[..|next| - 1], prev) + (if p.key in prev && prev[p.key] == p then [] else [p])
  }

  function ChangedIdentities(next: seq<Identity>, prev: map<IdentityID, Identity>): seq<Identity> {
    if next == [] then []
    else
      var d := next[|next| - 1];
      ChangedIdentities(next[..|next| - 1], prev) + (if d.id in prev && prev[d.id] == d then [] else [d])
  }

  /** The keys of `prev` that `kept` no longer has, in order. */
  function GonePolicies(prev: seq<PolicyRule>, kept: set<PolicyRuleKey>): seq<PolicyRuleKey> {
    if prev == [] then []
    else
      var k := prev[|prev| - 1].key;
      GonePolicies(prev[..|prev| - 1], kept) + (if k in kept then [] else [k])
  }

  function GoneIdentities(prev: seq<Identity>, kept: set<IdentityID>): seq<IdentityID> {
    if prev == [] then []
    else
      var k := prev[|prev| - 1].id;
      GoneIdentities(prev[..|prev| - 1], kept) + (if k in kept then [] else [k])
  }

  function Plan(prev: Snapshot, next: Snapshot): CommitPlan {
    CommitPlan(
      ChangedIdentities(next.identities, IdentityTable(prev.identities)),
      GoneIdentities(prev.identities, IdentityTable(next.identities).Keys),
      ChangedPolicies(next.policies, PolicyTable(prev.policies)),
      GonePolicies(prev.policies, PolicyTable(next.policies).Keys))
  }

  method DiffIdentities(prev: seq<Identity>, next: seq<Identity>)
    returns (upserts: seq<Identity>, deletes: seq<IdentityID>)
    ensures upserts == ChangedIdentities(next, IdentityTable(prev))
    ensures deletes == GoneIdentities(prev, IdentityTable(next).Keys)
  {
    var oldIdent: map<IdentityID, Identity> := map[];
    for i := 0 to |prev|
      invariant oldIdent == IdentityTable(prev[..i])
    {
      assert prev[..i + 1][..i] == prev[..i];
      oldIdent := oldIdent[prev[i].id := prev[i]];
    }
    assert prev[..|prev|] == prev;
    var nextIdent: set<IdentityID> := {};
    upserts := [];
    for i := 0 to |next|
      invariant nextIdent == IdentityTable(next[..i]).Keys
      invariant upserts == ChangedIdentities(next[..i], oldIdent)
    {
      assert next[..i + 1][..i] == next[..i];
      nextIdent := nextIdent + {next[i].id};
      if !(next[i].id in oldIdent && oldIdent[next[i].id] == next[i]) {
        upserts := upserts + [next[i]];
      }
    }
    assert next[..|next|] == next;
    deletes := [];
    for i := 0 to |prev|
      invariant deletes == GoneIdentities(prev[..i], nextIdent)
    {
      assert prev[..i + 1][..i] == prev[..i];
      if prev[i].id !in nextIdent {
        deletes := deletes + [prev[i].id];
      }
    }
  }

  method DiffPolicies(prev: seq<PolicyRule>, next: seq<PolicyRule>)
    returns (upserts: seq<PolicyRule>, deletes: seq<PolicyRuleKey>)
    ensures upserts == ChangedPolicies(next, PolicyTable(prev))
    ensures deletes == GonePolicies(prev, PolicyTable(next).Keys)
  {
    var oldPol: map<PolicyRuleKey, PolicyRule> := map[];
    for i := 0 to |prev|
      invariant oldPol == PolicyTable(prev[..i])
    {
      assert prev[..i + 1][..i] == prev[..i];
      oldPol := oldPol[prev[i].key := prev[i]];
    }
    assert prev[..|prev|] == prev;
    var nextPol: set<PolicyRuleKey> := {};
    upserts := [];
    for i := 0 to |next|
      invariant nextPol == PolicyTable(next[..i]).Keys
      invariant upserts == ChangedPolicies(next[..i], oldPol)
    {
      assert next[..i + 1][..i] == next[..i];
      nextPol := nextPol + {next[i].key};
      if !(next[i].key in oldPol && oldPol[next[i].key] == next[i]) {
        upserts := upserts + [next[i]];
      }
    }
    assert next[..|next|] == next;
    deletes := [];
    for i := 0 to |prev|
      invariant deletes == GonePolicies(prev[..i], nextPol)
    {
      assert prev[..i + 1][..i] == prev[..i];
      if prev[i].key !in nextPol {
        deletes := deletes + [prev[i].key];
      }
    }
  }

  /** diff: the plan that turns the applied snapshot into the desired one. */
  method ComputePlan(prev: Snapshot, next: Snapshot) returns (plan: CommitPlan)
    ensures plan == Plan(prev, next)
  {
    var iu, idel := DiffIdentities(prev.identities, next.identities);
    var pu, pdel := DiffPolicies(prev.policies, next.policies);
    plan := CommitPlan(iu, idel, pu, pdel);
  }

  lemma {:induction false} PolicyTableUnique(ps: seq<PolicyRule>)
    requires UniquePolicies(ps)
    ensures forall k :: k in PolicyTable(ps) <==> exists i :: 0 <= i < |ps| && ps[i].key == k
    ensures forall i :: 0 <= i < |ps| ==> ps[i].key in PolicyTable(ps) && PolicyTable(ps)[ps[i].key] == ps[i]
  {
    if ps != [] {
      var front := ps[..|ps| - 1];
      assert forall i :: 0 <= i < |front| ==> front[i] == ps[i];
      PolicyTableUnique(front);
    }
  }

  lemma {:induction false} IdentityTableUnique(ids: seq<Identity>)
    requires UniqueIdentities(ids)
    ensures forall k :: k in IdentityTable(ids) <==> exists i :: 0 <= i < |ids| && ids[i].id == k
    ensures forall i :: 0 <= i < |ids| ==> ids[i].id in IdentityTable(ids) && IdentityTable(ids)[ids[i].id] == ids[i]
  {
    if ids != [] {
      var front := ids[..|ids| - 1];
      assert forall i :: 0 <= i < |front| ==> front[i] == ids[i];
      IdentityTableUnique(front);
    }
  }

  lemma {:induction false} PolicyTableKeys(ps: seq<PolicyRule>)
    ensures forall k :: k in PolicyTable(ps) <==> exists i :: 0 <= i < |ps| && ps[i].key == k
    ensures forall k :: k in PolicyTable(ps) ==> PolicyTable(ps)[k].key == k
  {
    if ps != [] {
      var front := ps[..|ps| - 1];
      assert forall i :: 0 <= i < |front| ==> front[i] == ps[i];
      PolicyTableKeys(front);
    }
  }

  lemma {:induction false} ChangedPoliciesMembers(next: seq<PolicyRule>, prev: map<PolicyRuleKey, PolicyRule>)
    requires UniquePolicies(next)
    ensures forall p :: p in ChangedPolicies(next, prev) <==> p in next && !(p.key in prev && prev[p.key] == p)
    ensures UniquePolicies(ChangedPolicies(next, prev))
  {
    if next != [] {
      var front := next[..|next| - 1];
      assert next == front + [next[|next| - 1]];
      ChangedPoliciesMembers(front, prev);
      var c := ChangedPolicies(front, prev);
      forall i | 0 <= i < |c| ensures c[i].key != next[|next| - 1].key {
        assert c[i] in front;
      }
    }
  }

  lemma {:induction false} ChangedIdentitiesMembers(next: seq<Identity>, prev: map<IdentityID, Identity>)
    requires UniqueIdentities(next)
    ensures forall d :: d in ChangedIdentities(next, prev) <==> d in next && !(d.id in prev && prev[d.id] == d)
    ensures UniqueIdentities(ChangedIdentities(next, prev))
  {
    if next != [] {
      var front := next[..|next| - 1];
      assert next == front + [next[|next| - 1]];
      ChangedIdentitiesMembers(front, prev);
      var c := ChangedIdentities(front, prev);
      forall i | 0 <= i < |c| ensures c[i].id != next[|next| - 1].id {
        assert c[i] in front;
      }
    }
  }

  lemma {:induction false} GonePoliciesMembers(prev: seq<PolicyRule>, kept: set<PolicyRuleKey>)
    ensures forall k :: k in GonePolicies(prev, kept) <==> k !in kept && exists i :: 0 <= i < |prev| && prev[i].key == k
  {
    if prev != [] {
      var front := prev[..|prev| - 1];
      assert forall i :: 0 <= i < |front| ==> front[i] == prev[i];
      GonePoliciesMembers(front, kept);
    }
  }

  lemma {:induction false} GoneIdentitiesMembers(prev: seq<Identity>, kept: set<IdentityID>)
    ensures forall k :: k in GoneIdentities(prev, kept) <==>
        k !in kept && exists i :: 0 <= i < |prev| && prev[i].id == k
  {
    if prev != [] {
      var front := prev[..|prev| - 1];
      assert forall i :: 0 <= i < |front| ==> front[i] == prev[i];
      GoneIdentitiesMembers(front, kept);
    }
  }

  lemma {:induction false} NothingChanged(next: seq<Identity>, prev: map<IdentityID, Identity>)
    requires forall i :: 0 <= i < |next| ==> next[i].id in prev && prev[next[i].id] == next[i]
    ensures ChangedIdentities(next, prev) == []
  {
    if next != [] { NothingChanged(next[..|next| - 1], prev); }
  }

  lemma {:induction false} NothingGone(prev: seq<Identity>, kept: set<IdentityID>)
    requires forall i :: 0 <= i < |prev| ==> prev[i].id in kept
    ensures GoneIdentities(prev, kept) == []
  {
    if prev != [] { NothingGone(prev[..|prev| - 1], kept); }
  }
}
